/** The order of the callbacks: in every run the user sees a sequence of well-bracketed messages. */
module HttpBrackets {
  import opened Bytes
  import opened HttpTypes
  import opened HttpAct
  import opened HttpMachine
  import opened HttpResponse
  import opened HttpChunked
  import HttpCoding
  import HttpParser

  // ---------- the brackets ----------

  /** How far the callbacks of a message have come. */
  datatype Phase =
    | Idle
    | Begun
    | Named(part: Part)
    | AfterField(trailer: bool)
    | AfterValue(trailer: bool)
    | Framed
    | Plain
    | InChunk(left: nat)
    | ChunkDone
    | Trailer
    | Trailed
    | Wrong

  /** A callback in its place, or `Wrong`. A chunk brings exactly as many octets as its header announced. */
  function Next(p: Phase, e: Event): Phase {
    match e
    case MessageBegin => if p.Idle? then Begun else Wrong
    case Data(k, b) =>
      if k.Field? then
        (if p.Named? then AfterField(false) else if p.Trailer? then AfterField(true)
         else if p.AfterField? || p.AfterValue? then AfterField(p.trailer) else Wrong)
      else if k.Value? then (if p.AfterField? || p.AfterValue? then AfterValue(p.trailer) else Wrong)
      else if k.Body? then
        (if p.Framed? || p.Plain? then Plain
         else if p.InChunk? && |b| <= p.left then InChunk(p.left - |b|) else Wrong)
      else if p.Begun? || p == Named(k) then Named(k) else Wrong
    case HeadersComplete => if p.Named? || p == AfterValue(false) then Framed else Wrong
    case ChunkHeader(n) => if p.Framed? || p.ChunkDone? then (if n == 0 then Trailer else InChunk(n)) else Wrong
    case ChunkComplete => if p == InChunk(0) then ChunkDone else if p.Trailer? || p == AfterValue(true) then Trailed else Wrong
    case MessageComplete => if p.Framed? || p.Plain? || p.Trailed? then Idle else Wrong
  }

  function PhaseOf(log: seq<Event>): Phase {
    if log == [] then Idle else Next(PhaseOf(log[..|log| - 1]), log[|log| - 1])
  }

  lemma PhaseSnoc(log: seq<Event>, e: Event)
    ensures PhaseOf(log + [e]) == Next(PhaseOf(log), e)
  {
    assert (log + [e])[..|log|] == log;
  }

  /** Two data callbacks of one kind are as good as one. */
  lemma NextTwice(p: Phase, k: Part, a: seq<byte>, b: seq<byte>)
    ensures Next(Next(p, Data(k, a)), Data(k, b)) == Next(p, Data(k, a + b))
  {
  }

  lemma PhaseAppend(v: seq<Event>, e: Event)
    ensures PhaseOf(Append(v, e)) == Next(PhaseOf(v), e)
  {
    hide Next;
    if e.Data? && |v| > 0 && v[|v| - 1].Data? && v[|v| - 1].part == e.part {
      var init, d := v[..|v| - 1], v[|v| - 1];
      PhaseSnoc(init, Data(e.part, d.bytes + e.bytes));
      NextTwice(PhaseOf(init), e.part, d.bytes, e.bytes);
      assert v[|v| - 1] == Data(e.part, d.bytes);
    } else {
      PhaseSnoc(v, e);
    }
  }

  /** Merging the data callbacks changes nothing. */
  lemma {:induction false} PhaseMerge(log: seq<Event>)
    ensures PhaseOf(Merge(log)) == PhaseOf(log)
    decreases |log|
  {
    hide Next, Append;
    if log != [] {
      PhaseMerge(log[..|log| - 1]);
      PhaseAppend(Merge(log[..|log| - 1]), log[|log| - 1]);
    }
  }

  /** What well-bracketed means for the user: every message that begins is completed before the next one
      begins, and at most one is open. */
  lemma {:induction false} Balanced(log: seq<Event>)
    requires PhaseOf(log) != Wrong
    ensures CountOf(log, MessageBegin) == CountOf(log, MessageComplete) + (if PhaseOf(log) == Idle then 0 else 1)
    decreases |log|
  {
    hide CountOf, Next;
    if log == [] {
      NoneCounted();
    } else {
      var init, e := log[..|log| - 1], log[|log| - 1];
      assert log == init + [e];
      NextCounts(PhaseOf(init), e);
      Balanced(init);
      LogConcat(init, [e], MessageBegin);
      LogConcat(init, [e], MessageComplete);
      OneEvent(e, MessageBegin);
      OneEvent(e, MessageComplete);
    }
  }

  /** Only the two brackets themselves open and close a message. */
  lemma NextCounts(p: Phase, e: Event)
    requires Next(p, e) != Wrong
    ensures p != Wrong && (e == MessageBegin ==> p == Idle && Next(p, e) != Idle)
    ensures e == MessageComplete ==> p != Idle && Next(p, e) == Idle
    ensures e != MessageBegin && e != MessageComplete ==> p != Idle && Next(p, e) != Idle
  {
  }

  lemma NoneCounted()
    ensures CountOf([], MessageBegin) == 0 && CountOf([], MessageComplete) == 0
  {
  }

  // ---------- phases and states ----------

  /** The states, grouped by the callbacks that come next. */
  datatype Stage =
    | Waiting | Beginning | InTarget | InReason | NameOver
    | LineStart | FieldOpen | FieldOver | ValueOpen | ValueOver | HeadOver
    | ChunkStart | InData | DataOver | InPlain | BodyOver

  function StageOf(s: State): Stage {
    if s.Dead? || s.StartReqOrRes? || s.StartRes? || s.StartReq? then Waiting
    else if s.HeaderFieldStart? || s.HeadersAlmostDone? then LineStart
    else if s.HeaderField? then FieldOpen
    else if s.HeaderValueDiscardWs? || s.HeaderValueDiscardWsAlmostDone? || s.HeaderValueDiscardLws? then FieldOver
    else if s.HeaderValue? then ValueOpen
    else if s.HeaderValueStart? || s.HeaderValueLws? || s.HeaderAlmostDone? then ValueOver
    else if s.HeadersDone? then HeadOver
    else if s.ChunkData? then InData
    else if s.ChunkDataAlmostDone? || s.ChunkDataDone? then DataOver
    else if s.BodyIdentity? || s.BodyIdentityEof? then InPlain
    else if s.MessageDone? then BodyOver
    else if s.ResStatus? then InReason
    else if s.ChunkSizeStart? || s.ChunkSize? || s.ChunkParameters? || s.ChunkSizeAlmostDone? then ChunkStart
    else if s.ResOrRespH? || s.ResH? || s.ResHT? || s.ResHTT? || s.ResHTTP?
         || s.ResHttpMajor? || s.ResHttpDot? || s.ResHttpMinor?
         || s.ResHttpEnd? || s.ResFirstStatusCode? || s.ResStatusCode? || s.ResStatusStart? || s.ReqMethod?
         || s.ReqSpacesBeforeUrl? then Beginning
    else if s.ResLineAlmostDone? || s.ReqHttpStart? || s.ReqHttpH? || s.ReqHttpHT? || s.ReqHttpHTT? || s.ReqHttpHTTP?
         || s.ReqHttpI? || s.ReqHttpIC? || s.ReqHttpMajor? || s.ReqHttpDot? || s.ReqHttpMinor? || s.ReqHttpEnd?
         || s.ReqLineAlmostDone? then NameOver
    else InTarget
  }

  predicate IsWaiting(s: State) {
    StageOf(s).Waiting?
  }

  /** The phase in which each stage finds the callbacks. `t` is F_TRAILING, `n` the content length. */
  predicate Fits(g: Stage, t: bool, n: nat, p: Phase) {
    match g
    case Waiting => p.Idle?
    case Beginning => p.Begun? && !t
    case InTarget => p == Named(Url) && !t
    case InReason => p == Named(Status) && !t
    case NameOver => p.Named? && !t
    case LineStart => (if t then p.Trailer? else p.Named?) || p == AfterValue(t)
    case FieldOpen => p == AfterField(t)
    case FieldOver => p == AfterField(t)
    case ValueOpen => p == AfterValue(t)
    case ValueOver => p == AfterValue(t)
    case HeadOver => p.Framed?
    case ChunkStart => p.Framed? || p.ChunkDone?
    case InData => p == InChunk(n)
    case DataOver => p == InChunk(0)
    case InPlain => p.Framed? || p.Plain?
    case BodyOver => p.Plain? || p.Trailed?
  }

  predicate Agrees(st: Parser, p: Phase) {
    Fits(StageOf(st.state), st.flags.trailing, st.contentLength, p)
  }

  // ---------- one case of the switch ----------

  /** Which stage a case may lead to, with which use of the marks and callbacks. */
  predicate Edge(g: Stage, t: bool, n: nat, out: Output, g': Stage, t': bool, n': nat) {
    match out
    case Nothing =>
      || (g.Waiting? && g'.Waiting?)
      || (t' == t && ((g == g' && !g.InData? && !g.BodyOver?) || (g.NameOver? && g'.LineStart?)
                    || (g.ValueOver? && g'.LineStart?)
                      || (g.HeadOver? && (g'.ChunkStart? || g'.InPlain?))))
    case Open(k) =>
      t' == t && (match k
                  case Url => g.Beginning? && g'.InTarget?
                  case Status => g.Beginning? && g'.InReason?
                  case Field => g.LineStart? && g'.FieldOpen?
                  case Value => (g.FieldOver? || g.ValueOver?) && g'.ValueOpen?
                  case Body => (g.InPlain? && g'.InPlain?)
                               || (g.InData? && n > 0 && (if g'.InData? then n' == n - 1 else g'.DataOver? && n == 1)))
    case Close =>
      t' == t && (((g.InTarget? || g.InReason?) && (g'.NameOver? || g'.LineStart?)) || (g.FieldOpen? && g'.FieldOver?)
                  || (g.ValueOpen? && g'.ValueOver?) || (g.DataOver? && g'.DataOver?))
    case Instant(k) => t' == t && k.Value? && g.FieldOver? && g'.LineStart?
    case Last => g.InPlain? && g'.BodyOver?
    case Notify(e) =>
      match e
      case MessageBegin => g.Waiting? && g'.Beginning? && !t'
      case HeadersComplete => g.LineStart? && !t && g'.HeadOver?
      case MessageComplete => (g.HeadOver? || g.BodyOver?) && g'.Waiting?
      case ChunkHeader(k) => g.ChunkStart? && (if k == 0 then g'.LineStart? && t' else g'.InData? && n' == k)
      case ChunkComplete => (g.DataOver? && g'.ChunkStart?) || (g.LineStart? && t && g'.BodyOver?)
      case Data(_, _) => false
  }

  predicate Moves(st: Parser, e: Effect) {
    e.st.errno == OK ==>
      && Edge(StageOf(st.state), st.flags.trailing, st.contentLength, e.out,
              StageOf(e.st.state), e.st.flags.trailing, e.st.contentLength)
      && (e.next == Again ==> e.out != Open(Body))
  }

  lemma WaitingStages()
    ensures StageOf(Dead) == Waiting && StageOf(StartReqOrRes) == Waiting && StageOf(StartRes) == Waiting
    ensures StageOf(StartReq) == Waiting && StageOf(ResOrRespH) == Beginning && StageOf(ReqMethod) == Beginning
  {
  }

  lemma ProtocolStages()
    ensures StageOf(ResH) == Beginning && StageOf(ResHT) == Beginning && StageOf(ResHTT) == Beginning
    ensures StageOf(ResHTTP) == Beginning
  {
  }

  lemma ResponseStages()
    ensures StageOf(ResHttpMajor) == Beginning && StageOf(ResHttpDot) == Beginning
    ensures StageOf(ResHttpMinor) == Beginning && StageOf(ResHttpEnd) == Beginning
  {
  }

  lemma StatusStages()
    ensures StageOf(ResFirstStatusCode) == Beginning && StageOf(ResStatusCode) == Beginning
    ensures StageOf(ResStatusStart) == Beginning
    ensures StageOf(ResStatus) == InReason && StageOf(ResLineAlmostDone) == NameOver && StageOf(HeaderFieldStart) == LineStart
  {
  }

  lemma TargetStages(s: State)
    ensures InUrl(s) ==> StageOf(s) == InTarget
  {
  }

  lemma TargetEnds()
    ensures StageOf(ReqSpacesBeforeUrl) == Beginning && StageOf(ReqHttpStart) == NameOver
    ensures StageOf(ReqLineAlmostDone) == NameOver && StageOf(HeaderFieldStart) == LineStart
  {
  }

  lemma RequestStages()
    ensures StageOf(ReqHttpStart) == NameOver && StageOf(ReqHttpH) == NameOver && StageOf(ReqHttpHT) == NameOver
    ensures StageOf(ReqHttpHTT) == NameOver
  {
  }

  lemma ProtocolEnds()
    ensures StageOf(ReqHttpI) == NameOver && StageOf(ReqHttpIC) == NameOver && StageOf(ReqHttpHTTP) == NameOver
  {
  }

  lemma VersionStages()
    ensures StageOf(ReqHttpMajor) == NameOver && StageOf(ReqHttpDot) == NameOver
    ensures StageOf(ReqHttpMinor) == NameOver && StageOf(ReqHttpEnd) == NameOver
  {
  }

  lemma LineStages()
    ensures StageOf(HeaderFieldStart) == LineStart && StageOf(HeadersAlmostDone) == LineStart
    ensures StageOf(HeaderField) == FieldOpen
    ensures StageOf(HeaderValueDiscardWs) == FieldOver && StageOf(HeaderValueDiscardWsAlmostDone) == FieldOver
    ensures StageOf(HeaderValueDiscardLws) == FieldOver
  {
  }

  lemma ValueStages()
    ensures StageOf(HeaderValueDiscardWs) == FieldOver && StageOf(HeaderValue) == ValueOpen
    ensures StageOf(HeaderValueStart) == ValueOver
    ensures StageOf(HeaderValueLws) == ValueOver && StageOf(HeaderAlmostDone) == ValueOver
    ensures StageOf(HeaderFieldStart) == LineStart
  {
  }

  lemma HeadStages()
    ensures StageOf(HeadersAlmostDone) == LineStart && StageOf(HeadersDone) == HeadOver && StageOf(MessageDone) == BodyOver
    ensures StageOf(ChunkSizeStart) == ChunkStart && StageOf(BodyIdentity) == InPlain && StageOf(BodyIdentityEof) == InPlain
  {
  }

  lemma ChunkStages()
    ensures StageOf(ChunkSizeStart) == ChunkStart && StageOf(ChunkSize) == ChunkStart && StageOf(ChunkParameters) == ChunkStart
    ensures StageOf(ChunkSizeAlmostDone) == ChunkStart && StageOf(HeaderFieldStart) == LineStart
    ensures StageOf(ChunkData) == InData && StageOf(ChunkDataAlmostDone) == DataOver && StageOf(ChunkDataDone) == DataOver
  {
  }

  // ---------- the start line ----------

  /** Cases that make no callback and stay in their stage, or begin the header lines. */
  predicate Quietly(st: Parser, s: State) {
    var g, g' := StageOf(st.state), StageOf(s);
    (g' == g && !g.InData? && !g.BodyOver?) || (g.NameOver? && g'.LineStart?)
  }

  lemma QuietMoves(st: Parser, e: Effect)
    requires e.out == Nothing && e.st.flags.trailing == st.flags.trailing && Quietly(st, e.st.state)
    ensures Moves(st, e)
  {
    hide StageOf;
  }

  lemma FailMoves(st: Parser, e: Effect)
    requires e.st.errno != OK
    ensures Moves(st, e)
  {
    hide StageOf, Edge;
  }

  lemma ExpectMoves(st: Parser, ch: byte, want: byte, err: Errno, s: State)
    requires st.errno == OK && err != OK && Quietly(st, s) && Quiet(st.state) && Quiet(s)
    requires InStartLine(st.state) ==> (InStartLine(s) || s.HeaderFieldStart?) && !s.ReqMethod?
    ensures Moves(st, Expect(st, ch, want, err, s))
  {
    hide Lawful, StageOf, Quiet, InStartLine, Moves, Quietly;
    if ch == want {
      QuietMoves(st, Goto(st, s));
    } else {
      FailMoves(st, Fail(st, err));
    }
  }

  lemma SameStage(st: Parser, st': Parser, s: State)
    requires st'.flags == st.flags && Quietly(st, s)
    ensures Moves(st, Goto(st', s))
  {
    hide StageOf;
  }

  lemma VersionMoves(st: Parser, ch: byte, major: bool, s: State)
    requires st.errno == OK && Quietly(st, s) && Quiet(st.state) && Quiet(s)
    requires InStartLine(st.state) && InStartLine(s) && !s.ReqMethod?
    ensures Moves(st, VersionDigit(st, ch, major, s))
  {
    hide Lawful, StageOf, Quiet, InStartLine, Moves, Quietly;
    if !IsNum(ch) {
      FailMoves(st, Fail(st, INVALID_VERSION));
    } else if major {
      SameStage(st, st.(httpMajor := ch - '0' as int), s);
    } else {
      SameStage(st, st.(httpMinor := ch - '0' as int), s);
    }
  }

  lemma DeadMoves(st: Parser, ch: byte)
    requires st.errno == OK
    ensures st.state == Dead ==> Moves(st, ActDead(st, ch))
    ensures st.state == StartReqOrRes ==> Moves(st, ActStartReqOrRes(st, ch))
  {
    hide Lawful, StageOf;
    WaitingStages();
  }

  lemma WaitMoves(st: Parser, ch: byte)
    requires st.errno == OK
    ensures st.state == StartRes ==> Moves(st, ActStartRes(st, ch))
    ensures st.state == ResOrRespH ==> Moves(st, ActResOrRespH(st, ch))
  {
    hide Lawful, StageOf;
    WaitingStages();
    ProtocolStages();
  }

  lemma LetterMoves(st: Parser, ch: byte)
    requires st.errno == OK && st.state == StartReq
    ensures Moves(st, ActStartReq(st, ch))
  {
    hide Lawful, FirstMethod, IsAlpha, StageOf;
    WaitingStages();
  }

  lemma StartMoves(st: Parser, ch: byte)
    requires st.errno == OK && IsStart(st.state)
    ensures Moves(st, ActStart(st, ch))
  {
    hide Lawful, Moves, ActDead, ActStartReqOrRes, ActStartRes, ActStartReq, ActResOrRespH;
    DeadMoves(st, ch);
    WaitMoves(st, ch);
    if st.state == StartReq {
      LetterMoves(st, ch);
    }
  }

  lemma ProtocolMoves(st: Parser, ch: byte)
    requires st.errno == OK && IsResponseProtocol(st.state)
    ensures Moves(st, ActResponseProtocol(st, ch))
  {
    hide Lawful, StageOf, Moves, Expect;
    ProtocolStages();
    ResponseStages();
    if st.state.ResH? {
      ExpectMoves(st, ch, 'T' as int, STRICT, ResHT);
    } else if st.state.ResHT? {
      ExpectMoves(st, ch, 'T' as int, STRICT, ResHTT);
    } else if st.state.ResHTT? {
      ExpectMoves(st, ch, 'P' as int, STRICT, ResHTTP);
    } else {
      ExpectMoves(st, ch, '/' as int, STRICT, ResHttpMajor);
    }
  }

  lemma ResponseVersionMoves(st: Parser, ch: byte)
    requires st.errno == OK && IsResponseVersion(st.state)
    ensures Moves(st, ActResponseVersion(st, ch))
  {
    hide Lawful, StageOf, Moves, Expect, VersionDigit;
    ResponseStages();
    if st.state.ResHttpMajor? {
      VersionMoves(st, ch, true, ResHttpDot);
    } else if st.state.ResHttpDot? {
      ExpectMoves(st, ch, '.' as int, INVALID_VERSION, ResHttpMinor);
    } else {
      VersionMoves(st, ch, false, ResHttpEnd);
    }
  }

  lemma FirstCodeMoves(st: Parser, ch: byte)
    requires st.errno == OK && st.state == ResFirstStatusCode
    ensures Moves(st, ActFirstStatusCode(st, ch))
  {
    hide Lawful, StageOf, Moves;
    StatusStages();
    var e := ActFirstStatusCode(st, ch);
    if e.st.errno != OK {
      FailMoves(st, e);
    } else {
      QuietMoves(st, e);
    }
  }

  lemma CodeMoves(st: Parser, ch: byte)
    requires st.errno == OK && st.state == ResStatusCode
    ensures Moves(st, ActStatusCode(st, ch))
  {
    hide Lawful, StageOf, Moves;
    StatusStages();
    var e := ActStatusCode(st, ch);
    if e.st.errno != OK {
      FailMoves(st, e);
    } else {
      QuietMoves(st, e);
    }
  }

  lemma ReasonMoves(st: Parser, ch: byte)
    requires st.errno == OK
    ensures st.state == ResStatusStart ==> Moves(st, ActStatusStart(st, ch))
    ensures st.state == ResStatus ==> Moves(st, ActStatus(st, ch))
  {
    hide Lawful, StageOf;
    StatusStages();
  }

  lemma StatusMoves(st: Parser, ch: byte)
    requires st.errno == OK && IsResponseStatus(st.state)
    ensures Moves(st, ActResponseStatus(st, ch))
  {
    hide Lawful, StageOf, Moves, Expect, ActFirstStatusCode, ActStatusCode, ActStatusStart, ActStatus;
    StatusStages();
    ResponseStages();
    if st.state.ResHttpEnd? {
      ExpectMoves(st, ch, SP, INVALID_VERSION, ResFirstStatusCode);
    } else if st.state.ResLineAlmostDone? {
      ExpectMoves(st, ch, LF, STRICT, HeaderFieldStart);
    } else if st.state.ResFirstStatusCode? {
      FirstCodeMoves(st, ch);
    } else if st.state.ResStatusCode? {
      CodeMoves(st, ch);
    } else {
      ReasonMoves(st, ch);
    }
  }

  lemma MethodMoves(st: Parser, ch: byte)
    requires st.errno == OK && st.state == ReqMethod
    ensures Moves(st, ActReqMethod(st, ch))
  {
    hide Lawful, NextMethod, LiteralAt, MethodName, StageOf;
    WaitingStages();
    TargetEnds();
  }

  lemma UrlStates(s: State, ch: byte)
    ensures var t := ParseUrlChar(s, ch); t == Dead || InUrl(t)
  {
    hide IsUrlChar, IsUserinfoChar, IsAlpha;
  }

  lemma UrlMoves(st: Parser, s: State, ch: byte, out: Output)
    requires st.errno == OK
    requires if out == Nothing then StageOf(st.state) == InTarget && OpenPart(st.state) == Some(Url)
             else out == Open(Url) && Quiet(st.state) && StageOf(st.state) == Beginning
    ensures Moves(st, UrlChar(st, s, ch, out))
  {
    hide Lawful, ParseUrlChar, StageOf, Quiet, OpenPart, InUrl;
    UrlStates(s, ch);
    TargetStages(ParseUrlChar(s, ch));
  }

  lemma TargetMoves(st: Parser, ch: byte)
    requires st.errno == OK
    ensures st.state == ReqSpacesBeforeUrl ==> Moves(st, ActSpacesBeforeUrl(st, ch))
    ensures InUrl(st.state) ==> Moves(st, ActUrl(st, ch))
  {
    hide Lawful, UrlChar, StageOf;
    TargetStages(st.state);
    TargetEnds();
    if st.state == ReqSpacesBeforeUrl {
      UrlMoves(st, if st.verb == CONNECT then ReqServerStart else ReqSpacesBeforeUrl, ch, Open(Url));
    } else if InUrl(st.state) {
      UrlMoves(st, st.state, ch, Nothing);
    }
  }

  lemma HttpStartMoves(st: Parser, ch: byte)
    requires st.errno == OK && st.state == ReqHttpStart
    ensures Moves(st, ActHttpStart(st, ch))
  {
    hide Lawful, StageOf, Moves;
    RequestStages();
    ProtocolEnds();
    var e := ActHttpStart(st, ch);
    if e.st.errno != OK {
      FailMoves(st, e);
    } else {
      QuietMoves(st, e);
    }
  }

  lemma HttpEndMoves(st: Parser, ch: byte)
    requires st.errno == OK && st.state == ReqHttpEnd
    ensures Moves(st, ActHttpEnd(st, ch))
  {
    hide Lawful, StageOf, Moves;
    VersionStages();
    TargetEnds();
    var e := ActHttpEnd(st, ch);
    if e.st.errno != OK {
      FailMoves(st, e);
    } else {
      QuietMoves(st, e);
    }
  }

  lemma RequestMoves(st: Parser, ch: byte)
    requires st.errno == OK && IsRequestProtocol(st.state)
    ensures Moves(st, ActRequestProtocol(st, ch))
  {
    hide Lawful, StageOf, Moves, Expect, ActHttpStart;
    RequestStages();
    ProtocolEnds();
    if st.state.ReqHttpStart? {
      HttpStartMoves(st, ch);
    } else if st.state.ReqHttpH? {
      ExpectMoves(st, ch, 'T' as int, STRICT, ReqHttpHT);
    } else if st.state.ReqHttpHT? {
      ExpectMoves(st, ch, 'T' as int, STRICT, ReqHttpHTT);
    } else if st.state.ReqHttpHTT? {
      ExpectMoves(st, ch, 'P' as int, STRICT, ReqHttpHTTP);
    } else if st.state.ReqHttpI? {
      ExpectMoves(st, ch, 'C' as int, STRICT, ReqHttpIC);
    } else if st.state.ReqHttpIC? {
      ExpectMoves(st, ch, 'E' as int, STRICT, ReqHttpHTTP);
    }
  }

  lemma RequestVersionMoves(st: Parser, ch: byte)
    requires st.errno == OK && IsRequestVersion(st.state)
    ensures Moves(st, ActRequestVersion(st, ch))
  {
    hide Lawful, StageOf, Moves, Expect, VersionDigit, ActHttpEnd;
    VersionStages();
    ProtocolEnds();
    TargetEnds();
    if st.state.ReqHttpEnd? {
      HttpEndMoves(st, ch);
    } else if st.state.ReqHttpHTTP? {
      ExpectMoves(st, ch, '/' as int, STRICT, ReqHttpMajor);
    } else if st.state.ReqHttpMajor? {
      VersionMoves(st, ch, true, ReqHttpDot);
    } else if st.state.ReqHttpDot? {
      ExpectMoves(st, ch, '.' as int, INVALID_VERSION, ReqHttpMinor);
    } else if st.state.ReqHttpMinor? {
      VersionMoves(st, ch, false, ReqHttpEnd);
    } else if st.state.ReqLineAlmostDone? {
      ExpectMoves(st, ch, LF, LF_EXPECTED, HeaderFieldStart);
    }
  }

  // ---------- header lines ----------

  lemma StartTrailing(st: Parser, ch: byte)
    ensures StartValue(st, ch).flags.trailing == st.flags.trailing
    ensures FinishHeader(st).flags.trailing == st.flags.trailing && FoldLine(st).flags == st.flags
  {
    hide FirstValueState, Lower, ConnectionFlag;
    ConnectionFlagKept(st.flags, st.headerState);
  }

  lemma OpensField(st: Parser, e: Effect)
    requires StageOf(st.state).LineStart? && StageOf(e.st.state).FieldOpen? && e.out == Open(Field)
    requires e.st.flags.trailing == st.flags.trailing
    ensures Moves(st, e)
  {
    hide StageOf;
  }

  lemma FieldStartMoves(st: Parser, ch: byte)
    requires st.errno == OK && st.state.HeaderFieldStart?
    ensures Moves(st, ActHeaderFieldStart(st, ch))
  {
    hide Lawful, Token, FirstHeaderState, StageOf, Moves;
    LineStages();
    var e := ActHeaderFieldStart(st, ch);
    if e.st.errno != OK {
      FailMoves(st, e);
    } else if e.out == Nothing {
      QuietMoves(st, e);
    } else {
      OpensField(st, e);
    }
  }

  lemma FieldMoves(st: Parser, ch: byte)
    requires st.errno == OK && st.state.HeaderField?
    ensures Moves(st, ActHeaderField(st, ch))
  {
    hide Lawful, Token, NameStep, StageOf;
    LineStages();
  }

  /** The first octet of a value, from either side of a fold. */
  lemma ValueStartMoves(st: Parser, ch: byte)
    requires st.errno == OK && (st.state.HeaderValueDiscardWs? || st.state.HeaderValueStart?)
    ensures Moves(st, ActHeaderValueStart(st, ch))
  {
    hide Lawful, ActHeaderValueStart, StageOf, Moves;
    ValueStarts(st, ch);
    ValueStages();
    var e := ActHeaderValueStart(st, ch);
    if e.st.errno != OK {
      FailMoves(st, e);
    } else {
      OpensValue(st, e);
    }
  }

  lemma ValueStarts(st: Parser, ch: byte)
    requires st.errno == OK && (st.state.HeaderValueDiscardWs? || st.state.HeaderValueStart?)
    ensures var e := ActHeaderValueStart(st, ch);
      e.st.errno == OK ==>
        e.st.state == HeaderValue && e.out == Open(Value) && e.next != Again && e.st.flags.trailing == st.flags.trailing
  {
    hide Lawful, StartValue, SameSettings;
    StartTrailing(st, ch);
    var e := ActHeaderValueStart(st, ch);
    if st.headerState == ContentLength && (!IsNum(ch) || st.flags.contentLength) {
      assert e.st.errno != OK;
    } else {
      assert e == Effect(StartValue(st, ch), Open(Value), Consume);
    }
  }

  lemma OpensValue(st: Parser, e: Effect)
    requires StageOf(st.state).FieldOver? || StageOf(st.state).ValueOver?
    requires StageOf(e.st.state).ValueOpen? && e.out == Open(Value) && e.next != Again
    requires e.st.flags.trailing == st.flags.trailing
    ensures Moves(st, e)
  {
    hide StageOf;
  }

  lemma DiscardMoves(st: Parser, ch: byte)
    requires st.errno == OK && st.state.HeaderValueDiscardWs?
    ensures Moves(st, ActDiscardWs(st, ch))
  {
    hide Lawful, ActHeaderValueStart, StageOf, Moves;
    LineStages();
    if ch == SP || ch == HT || ch == CR || ch == LF {
      QuietMoves(st, ActDiscardWs(st, ch));
    } else {
      ValueStartMoves(st, ch);
    }
  }

  lemma EmptyMoves(st: Parser, ch: byte)
    requires st.errno == OK && st.state.HeaderValueDiscardLws?
    ensures Moves(st, ActHeaderValueDiscardLws(st, ch))
  {
    hide Lawful, FinishHeader, StageOf, Moves;
    StartTrailing(st, ch);
    LineStages();
    var e := ActHeaderValueDiscardLws(st, ch);
    if e.st.errno != OK {
      FailMoves(st, e);
    } else if ch == SP || ch == HT {
      QuietMoves(st, e);
    } else {
      LineOver(st, e);
    }
  }

  /** A header line is over, and with it a value that is empty. */
  lemma LineOver(st: Parser, e: Effect)
    requires StageOf(e.st.state).LineStart? && e.st.flags.trailing == st.flags.trailing
    requires if e.out == Nothing then StageOf(st.state).ValueOver? else StageOf(st.state).FieldOver? && e.out == Instant(Value)
    ensures Moves(st, e)
  {
    hide StageOf;
  }

  lemma ValueMoves(st: Parser, ch: byte)
    requires st.errno == OK && st.state.HeaderValue?
    ensures Moves(st, ActHeaderValue(st, ch))
  {
    hide Lawful, ValueStep, StageOf;
    ValueStepFlags(ValueOf(st), st.lenient, ch);
    ValueStages();
  }

  lemma LineMoves(st: Parser, ch: byte)
    requires st.errno == OK && st.state.HeaderValueLws?
    ensures Moves(st, ActHeaderValueLws(st, ch))
  {
    hide Lawful, FoldLine, FinishHeader, StageOf, Moves;
    StartTrailing(st, ch);
    ValueStages();
    var e := ActHeaderValueLws(st, ch);
    if ch == SP || ch == HT {
      QuietMoves(st, e);
    } else {
      LineOver(st, e);
    }
  }

  lemma HeadersMove(st: Parser, ch: byte)
    requires st.errno == OK && IsHeader(st.state)
    ensures Moves(st, ActHeaders(st, ch))
  {
    hide Lawful, Moves, StageOf, ActHeaderFieldStart, ActHeaderField, ActHeaderValueStart, ActHeaderValue, ActHeaderValueLws,
         Expect;
    ValueStages();
    if st.state.HeaderFieldStart? {
      FieldStartMoves(st, ch);
    } else if st.state.HeaderField? {
      FieldMoves(st, ch);
    } else if st.state.HeaderValueStart? {
      ValueStartMoves(st, ch);
    } else if st.state.HeaderValue? {
      ValueMoves(st, ch);
    } else if st.state.HeaderAlmostDone? {
      ExpectMoves(st, ch, LF, LF_EXPECTED, HeaderValueLws);
    } else {
      LineMoves(st, ch);
    }
  }

  lemma BeforeValueMoves(st: Parser, ch: byte)
    requires st.errno == OK && IsBeforeValue(st.state)
    ensures Moves(st, ActBeforeValue(st, ch))
  {
    hide Lawful, Moves, StageOf, ActDiscardWs, ActHeaderValueDiscardLws, Expect;
    LineStages();
    if st.state.HeaderValueDiscardWs? {
      DiscardMoves(st, ch);
    } else if st.state.HeaderValueDiscardLws? {
      EmptyMoves(st, ch);
    } else {
      ExpectMoves(st, ch, LF, STRICT, HeaderValueDiscardLws);
    }
  }

  // ---------- the end of the headers, and bodies ----------

  lemma NextWaits(st: Parser)
    ensures StageOf(NewMessage(st)) == Waiting
  {
    hide ShouldKeepAlive, StageOf;
    WaitingStages();
  }

  lemma HeadersEndMoves(st: Parser, ch: byte)
    requires st.errno == OK && st.state == HeadersAlmostDone
    ensures Moves(st, ActHeadersAlmostDone(st, ch))
  {
    hide Lawful, HeadersCompleted, LengthConflict, StageOf;
    HeadStages();
  }

  lemma FramingMoves(st: Parser, ch: byte)
    requires st.errno == OK && st.state == HeadersDone
    ensures Moves(st, ActFraming(st))
  {
    hide Lawful, NewMessage, MessageNeedsEof, StageOf, Moves;
    HeadStages();
    var e := ActFraming(st);
    if e.st.errno != OK {
      FailMoves(st, e);
    } else if e.out == Nothing {
      BodyBegins(st, e);
    } else {
      NextWaits(st);
      MessageEnds(st, e);
    }
  }

  lemma BodyBegins(st: Parser, e: Effect)
    requires StageOf(st.state).HeadOver? && (StageOf(e.st.state).ChunkStart? || StageOf(e.st.state).InPlain?)
    requires e.out == Nothing && e.st.flags.trailing == st.flags.trailing
    ensures Moves(st, e)
  {
    hide StageOf;
  }

  lemma MessageEnds(st: Parser, e: Effect)
    requires (StageOf(st.state).HeadOver? || StageOf(st.state).BodyOver?) && StageOf(e.st.state).Waiting?
    requires e.out == Notify(MessageComplete)
    ensures Moves(st, e)
  {
    hide StageOf;
  }

  lemma DoneMoves(st: Parser, ch: byte)
    requires st.errno == OK && st.state == HeadersDone
    ensures Moves(st, ActHeadersDone(st, ch))
  {
    hide Lawful, NewMessage, HandsOver, ActFraming, StageOf;
    HeadStages();
    NextWaits(st.(nread := 0));
    FramingMoves(st.(nread := 0), ch);
  }

  lemma PlainMoves(st: Parser, ch: byte)
    requires st.errno == OK
    ensures st.state.BodyIdentity? ==> Moves(st, ActBodyIdentity(st, ch))
    ensures st.state.BodyIdentityEof? ==> Moves(st, ActBodyIdentityEof(st, ch))
  {
    hide Lawful, StageOf;
    HeadStages();
  }

  lemma DataMoves(st: Parser, ch: byte)
    requires st.errno == OK && st.state.ChunkData?
    ensures Moves(st, ActChunkData(st, ch))
  {
    hide Lawful, StageOf;
    ChunkStages();
  }

  lemma DataEndMoves(st: Parser, ch: byte)
    requires st.errno == OK
    ensures st.state.ChunkDataAlmostDone? ==> Moves(st, ActChunkDataAlmostDone(st, ch))
    ensures st.state.ChunkDataDone? ==> Moves(st, ActChunkDataDone(st, ch))
  {
    hide Lawful, StageOf;
    ChunkStages();
  }

  lemma OverMoves(st: Parser, next: HttpAct.Next)
    requires st.errno == OK && st.state.MessageDone? && next != Again
    ensures Moves(st, CompleteMessage(st, next))
  {
    hide Lawful, NewMessage, StageOf;
    HeadStages();
    NextWaits(st);
  }

  lemma BodyMoves(st: Parser, ch: byte)
    requires st.errno == OK && IsBody(st.state)
    ensures Moves(st, ActBody(st, ch))
  {
    hide Lawful, Moves, ActBodyIdentity, ActBodyIdentityEof, ActChunkData, ActChunkDataAlmostDone, ActChunkDataDone,
         CompleteMessage;
    if st.state.MessageDone? {
      OverMoves(st, if st.upgrade then Exit else Consume);
    } else if st.state.ChunkData? {
      DataMoves(st, ch);
    } else {
      PlainMoves(st, ch);
      DataEndMoves(st, ch);
    }
  }

  lemma SizeMoves(st: Parser, ch: byte)
    requires st.errno == OK
    ensures st.state.ChunkSizeStart? ==> Moves(st, ActChunkSizeStart(st, ch))
    ensures st.state.ChunkSize? ==> Moves(st, ActChunkSize(st, ch))
    ensures st.state.ChunkParameters? ==> Moves(st, ActChunkParameters(st, ch))
  {
    hide Lawful, Unhex, StageOf;
    ChunkStages();
  }

  lemma SizeEndMoves(st: Parser, ch: byte)
    requires st.errno == OK && st.state.ChunkSizeAlmostDone?
    ensures Moves(st, ActChunkSizeAlmostDone(st, ch))
  {
    hide Lawful, StageOf;
    ChunkStages();
  }

  lemma ChunkHeaderMoves(st: Parser, ch: byte)
    requires st.errno == OK && IsChunkHeader(st.state)
    ensures Moves(st, ActChunkHeader(st, ch))
  {
    hide Lawful, Moves, ActChunkSizeStart, ActChunkSize, ActChunkParameters, ActChunkSizeAlmostDone;
    if st.state.ChunkSizeAlmostDone? {
      SizeEndMoves(st, ch);
    } else {
      SizeMoves(st, ch);
    }
  }

  /** Every case of the switch moves along an edge. */
  lemma ActMoves(st: Parser, ch: byte)
    requires st.errno == OK
    ensures Moves(st, Act(st, ch))
  {
    hide Lawful, Moves, ActHeaders, ActBeforeValue, ActBody, ActChunkHeader, ActHeadersAlmostDone, ActHeadersDone, ActStart,
         ActResponseProtocol, ActResponseVersion, ActResponseStatus, ActReqMethod, ActSpacesBeforeUrl, ActUrl,
         ActRequestProtocol, ActRequestVersion;
    var s := st.state;
    if IsHeader(s) {
      HeadersMove(st, ch);
    } else if IsBeforeValue(s) {
      BeforeValueMoves(st, ch);
    } else if IsBody(s) {
      BodyMoves(st, ch);
    } else if IsChunkHeader(s) {
      ChunkHeaderMoves(st, ch);
    } else if IsStart(s) {
      StartMoves(st, ch);
    } else if IsResponseProtocol(s) {
      ProtocolMoves(st, ch);
    } else if IsResponseVersion(s) {
      ResponseVersionMoves(st, ch);
    } else if IsResponseStatus(s) {
      StatusMoves(st, ch);
    } else if s == HeadersAlmostDone {
      HeadersEndMoves(st, ch);
    } else if s == HeadersDone {
      DoneMoves(st, ch);
    } else if s == ReqMethod {
      MethodMoves(st, ch);
    } else if s == ReqSpacesBeforeUrl || InUrl(s) {
      TargetMoves(st, ch);
    } else if IsRequestProtocol(s) {
      RequestMoves(st, ch);
    } else {
      RequestVersionMoves(st, ch);
    }
  }

  // ---------- every callback in its place ----------

  function OutPhase(p: Phase, out: Output, ch: byte): Phase {
    match out
    case Nothing => p
    case Open(k) => Next(p, Data(k, []))
    case Close => p
    case Instant(k) => Next(p, Data(k, []))
    case Last => Next(p, Data(Body, [ch]))
    case Notify(e) => Next(p, e)
  }

  /** The data callback whose mark is open behind a stage; a body's mark is open only where it was just set. */
  function PartOf(g: Stage, out: Output): Option<Part> {
    if g.InTarget? then Some(Url) else if g.InReason? then Some(Status)
    else if g.FieldOpen? then Some(Field) else if g.ValueOpen? then Some(Value)
    else if out == Open(Body) then Some(Body) else None
  }

  /** The octet under the mark that is open behind the case. */
  function Covered(p: Phase, g: Stage, out: Output, ch: byte): Phase {
    match PartOf(g, out) case Some(k) => Next(p, Data(k, [ch])) case None => p
  }

  lemma EdgeFits(g: Stage, t: bool, n: nat, out: Output, g': Stage, t': bool, n': nat, p: Phase, ch: byte)
    requires Edge(g, t, n, out, g', t', n') && Fits(g, t, n, p)
    ensures out != Open(Body) ==> Fits(g', t', n', OutPhase(p, out, ch))
    ensures Fits(g', t', n', Covered(OutPhase(p, out, ch), g', out, ch))
  {
  }

  lemma StageParts(s: State, out: Output)
    ensures OpenPart(s).Some? ==> PartOf(StageOf(s), out) == OpenPart(s)
    ensures OpenPart(s).None? ==> PartOf(StageOf(s), out) == if out == Open(Body) then Some(Body) else None
  {
    hide StageOf;
    if InUrl(s) {
      TargetStages(s);
    } else if s.HeaderField? || s.HeaderValue? || s.ResStatus? {
      LineStages();
      ValueStages();
      StatusStages();
    } else {
      ClosedStages(s);
    }
  }

  lemma ClosedStages(s: State)
    requires !InUrl(s) && !s.HeaderField? && !s.HeaderValue? && !s.ResStatus?
    ensures var g := StageOf(s); !g.InTarget? && !g.InReason? && !g.FieldOpen? && !g.ValueOpen?
  {
  }

  // ---------- whole runs ----------

  /** The callbacks so far, with the octets under the open mark, are in the phase that the state calls for. */
  predicate Bracketed(m: Machine) {
    MarkOk(m) && Agrees(m.st, PhaseOf(View(m)))
  }

  lemma OutView(v: seq<Event>, out: Output, ch: byte)
    ensures PhaseOf(ViewOut(v, out, ch)) == OutPhase(PhaseOf(v), out, ch)
  {
    hide Append, Next, PhaseOf;
    match out {
      case Nothing =>
      case Open(k) => PhaseAppend(v, Data(k, []));
      case Close =>
      case Instant(k) => PhaseAppend(v, Data(k, []));
      case Last => PhaseAppend(v, Data(Body, [ch]));
      case Notify(e) => PhaseAppend(v, e);
    }
  }

  lemma BodyOpens(st: Parser, e: Effect)
    requires Lawful(st, e) && e.st.errno == OK && e.out == Open(Body)
    ensures InBody(e.st.state)
  {
  }

  lemma CoveredView(m: Machine, e: Effect, ch: byte)
    requires m.st == e.st && m.st.errno == OK && MarkOk(m) && (e.out == Open(Body) ==> InBody(e.st.state))
    requires InBody(e.st.state) ==> (m.mark.Closed? <==> e.out != Open(Body))
    ensures PhaseOf(View(Advance(m, ch))) == Covered(PhaseOf(View(m)), StageOf(m.st.state), e.out, ch)
  {
    hide Append, Merge, Next, PhaseOf, View, Lawful, StageOf, PartOf, Advance;
    AdvanceView(m, ch);
    StageParts(m.st.state, e.out);
    if m.mark.Opened? {
      PhaseAppend(View(m), Data(m.mark.part, [ch]));
    }
  }

  lemma {:induction false} DispatchBracketed(m: Machine, ch: byte)
    requires m.st.errno == OK && Bracketed(m)
    ensures var r := Dispatch(m, ch);
      r.st.errno == OK ==> MarkOk(r) && Agrees(r.st, PhaseOf(View(Advance(r, ch))))
    decreases Rank(m.st.state)
  {
    hide Act, Append, Merge, StageOf, Fits, Edge, OutPhase, Covered, PhaseOf, ViewOut, View, MarkOk, MarksFit, StartLineLaw,
         Perform, MarkReady, InStartLine, SameSettings, InBody, Advance;
    var e := Act(m.st, ch);
    var m' := Perform(m, e.out, ch).(st := e.st);
    ActMoves(m.st, ch);
    MarkFollows(m, e, ch);
    PerformView(m, e.out, ch);
    OutView(View(m), e.out, ch);
    HttpCoding.ViewSame(Perform(m, e.out, ch), e.st, false);
    if e.st.errno == OK {
      EdgeFits(StageOf(m.st.state), m.st.flags.trailing, m.st.contentLength, e.out,
               StageOf(e.st.state), e.st.flags.trailing, e.st.contentLength, PhaseOf(View(m)), ch);
      if e.next == Again {
        DispatchBracketed(m', ch);
      } else {
        var m'' := m'.(exited := e.next == Exit);
        HttpCoding.ViewSame(m', m'.st, e.next == Exit);
        if e.out == Open(Body) {
          BodyOpens(m.st, e);
        }
        CoveredView(m'', e, ch);
      }
    }
  }

  lemma AgreesCount(st: Parser, n: nat, p: Phase)
    ensures Agrees(st.(nread := n), p) == Agrees(st, p)
  {
  }

  lemma AdvanceMark(m: Machine, ch: byte)
    ensures Advance(m, ch).st == m.st && (m.st.errno == OK && MarkOk(m) ==> MarkOk(Advance(m, ch)))
  {
  }

  lemma ByteStepBracketed(m: Machine, ch: byte)
    requires Alive(m) && Bracketed(m)
    ensures ByteStep(m, ch).st.errno == OK ==> Bracketed(ByteStep(m, ch))
  {
    hide Dispatch, Advance, Agrees, View, MarkOk, PhaseOf, ParsingHeader;
    var counted := m.(st := Count(m.st));
    HttpCoding.CountedSame(m);
    AgreesCount(m.st, Count(m.st).nread, PhaseOf(View(m)));
    if counted.st.errno == OK {
      DispatchBracketed(counted, ch);
      AdvanceMark(Dispatch(counted, ch), ch);
    }
  }

  lemma {:induction false} RunBracketed(m: Machine, s: seq<byte>)
    requires Bracketed(m)
    ensures Run(m, s).st.errno == OK ==> Bracketed(Run(m, s))
    decreases |s|
  {
    hide Bracketed, ByteStep;
    if !Alive(m) {
      RunStopped(m, s);
    } else if s != [] {
      ByteStepBracketed(m, s[0]);
      if ByteStep(m, s[0]).st.errno == OK {
        RunBracketed(ByteStep(m, s[0]), s[1..]);
      } else {
        RunStopped(ByteStep(m, s[0]), s[1..]);
      }
    }
  }

  /** Between two calls. */
  lemma CallBracketed(m: Machine)
    requires Alive(m) && Bracketed(m)
    ensures Bracketed(Begin(Finish(m))) && Alive(Finish(m))
  {
    hide Append, Merge, Agrees, View, PhaseOf;
    CallBoundary(m);
  }

  lemma {:induction false} FeedAllBracketed(m: Machine, pieces: seq<seq<byte>>)
    requires Alive(m) && Bracketed(Begin(m)) && NonemptyPieces(pieces)
    ensures Alive(FeedAll(m, pieces)) ==> Bracketed(Begin(FeedAll(m, pieces)))
    decreases |pieces|
  {
    hide Bracketed, Begin, Finish, Run;
    if pieces != [] {
      var r := Run(Begin(m), pieces[0]);
      RunBracketed(Begin(m), pieces[0]);
      HttpCoding.FinishAlive(r);
      if Alive(r) {
        CallBracketed(r);
        FeedAllBracketed(Finish(r), pieces[1..]);
      } else {
        FeedAllStopped(Finish(r), pieces[1..]);
      }
    }
  }

  lemma FreshBracketed(kind: Kind, verdict: Verdict, lenient: bool, allow: bool)
    ensures var m := HttpCoding.Fresh(kind, verdict, lenient, allow); Alive(m) && Bracketed(Begin(m))
  {
    hide StageOf;
    WaitingStages();
    var m := HttpCoding.Fresh(kind, verdict, lenient, allow);
    assert Begin(m) == m && View(m) == [] && PhaseOf([]) == Idle;
  }

  lemma NeverWrong(st: Parser, p: Phase)
    requires Agrees(st, p)
    ensures p != Wrong && (p == Idle <==> IsWaiting(st.state))
  {
  }

  /** In every run of every parser, over any calls and at any octet of the next one: without an error, the
      callbacks made so far, with what the open mark still holds, are a sequence of well-bracketed messages, the
      last one perhaps unfinished; and one is unfinished exactly if the parser does not wait for a new message. */
  lemma AlwaysBracketed(kind: Kind, verdict: Verdict, lenient: bool, allow: bool, pieces: seq<seq<byte>>, s: seq<byte>)
    requires NonemptyPieces(pieces)
    ensures var c := FeedAll(HttpCoding.Fresh(kind, verdict, lenient, allow), pieces);
      var m := Run(Begin(c), s);
      Alive(c) && m.st.errno == OK ==>
        && PhaseOf(View(m)) != Wrong && (PhaseOf(View(m)) == Idle <==> IsWaiting(m.st.state))
        && CountOf(View(m), MessageBegin) == CountOf(View(m), MessageComplete) + (if IsWaiting(m.st.state) then 0 else 1)
  {
    hide Run, Begin, FeedAll, View, Agrees, PhaseOf, CountOf, MarkOk, IsWaiting;
    var start := HttpCoding.Fresh(kind, verdict, lenient, allow);
    var c := FeedAll(start, pieces);
    FreshBracketed(kind, verdict, lenient, allow);
    FeedAllBracketed(start, pieces);
    if Alive(c) {
      var m := Run(Begin(c), s);
      RunBracketed(Begin(c), s);
      if m.st.errno == OK {
        NeverWrong(m.st, PhaseOf(View(m)));
        Balanced(View(m));
      }
    }
  }

  /** An empty piece of data at the end of the callbacks hides nothing. */
  lemma BeginPhase(m: Machine)
    requires Agrees(m.st, PhaseOf(View(Begin(m))))
    ensures PhaseOf(Merge(m.log)) != Wrong && (PhaseOf(Merge(m.log)) == Idle <==> IsWaiting(m.st.state))
  {
    hide Append, Merge, PhaseOf;
    if OpenPart(m.st.state).Some? {
      PhaseAppend(Merge(m.log), Data(OpenPart(m.st.state).value, []));
    }
  }

  /** The same for the callbacks as they were made, data in as many pieces as there were calls. */
  lemma LogBracketed(kind: Kind, verdict: Verdict, lenient: bool, allow: bool, pieces: seq<seq<byte>>)
    requires NonemptyPieces(pieces)
    ensures var c := FeedAll(HttpCoding.Fresh(kind, verdict, lenient, allow), pieces);
      Alive(c) ==> PhaseOf(c.log) != Wrong && (PhaseOf(c.log) == Idle <==> IsWaiting(c.st.state))
  {
    hide FeedAll, Agrees, PhaseOf, IsWaiting, Merge, Append, Next;
    var start := HttpCoding.Fresh(kind, verdict, lenient, allow);
    var c := FeedAll(start, pieces);
    FreshBracketed(kind, verdict, lenient, allow);
    FeedAllBracketed(start, pieces);
    if Alive(c) {
      PhaseMerge(c.log);
      BeginPhase(c);
    }
  }

  lemma EofPhase(m: Machine)
    requires Agrees(m.st, PhaseOf(View(Begin(m)))) && m.st.state == BodyIdentityEof
    ensures PhaseOf(m.log) != Idle && PhaseOf(m.log + [MessageComplete]) == Idle
  {
    hide Append, Merge, PhaseOf;
    PhaseMerge(m.log);
    PhaseSnoc(m.log, MessageComplete);
  }

  /** The end of the input, in every run of every parser: it is accepted exactly where no message is open, or one that
      lasts to the end, which is then completed; anywhere else it is an error, and no callback is made. */
  lemma EndOfInput(kind: Kind, verdict: Verdict, lenient: bool, allow: bool, pieces: seq<seq<byte>>)
    requires NonemptyPieces(pieces)
    ensures var c := FeedAll(HttpCoding.Fresh(kind, verdict, lenient, allow), pieces);
      var (st, log, n) := HttpParser.AtEof(c.st, c.log);
      Alive(c) ==>
        if PhaseOf(c.log) == Idle then st == c.st && log == c.log && n == 0
        else if c.st.state == BodyIdentityEof then st == c.st && log == c.log + [MessageComplete]
             && PhaseOf(log) == Idle && n == 0
        else st == c.st.(errno := INVALID_EOF_STATE) && log == c.log && n == 1
  {
    hide FeedAll, Agrees, PhaseOf, IsWaiting, Merge, Append, Next;
    var start := HttpCoding.Fresh(kind, verdict, lenient, allow);
    var c := FeedAll(start, pieces);
    FreshBracketed(kind, verdict, lenient, allow);
    FeedAllBracketed(start, pieces);
    LogBracketed(kind, verdict, lenient, allow, pieces);
    if Alive(c) {
      WaitingStates(c.st.state);
      if c.st.state == BodyIdentityEof {
        EofPhase(c);
      }
    }
  }

  lemma WaitingStates(s: State)
    ensures IsWaiting(s) <==> s == Dead || s == StartReqOrRes || s == StartRes || s == StartReq
  {
  }
}
