/** What holds in every state the parser can reach: the `assert`s of http_parser_execute never
    fire, no bit-field overflows, and no array is read out of bounds. */
module HttpInvariant {
  import opened Bytes
  import opened HttpTypes
  import opened HttpAct
  import opened HttpMachine

  /** The values of `header_state` inside a header name: the others are an `assert(0)`. */
  predicate IsNameState(h: HeaderState) {
    h.General? || h.C? || h.CO? || h.CON? || h.MatchingConnection? || h.MatchingProxyConnection?
    || h.MatchingContentLength? || h.MatchingTransferEncoding? || h.MatchingUpgrade?
    || h.Connection? || h.ContentLength? || h.TransferEncoding? || h.Upgrade?
  }

  /** The largest `index` that goes with a header state; all of them fit the 5-bit field. */
  function IndexLimit(h: HeaderState): nat {
    if h.C? then 0 else if h.CO? then 1 else if h.CON? then 2
    else if h.MatchingConnection? then 8
    else if h.MatchingProxyConnection? then 14
    else if h.MatchingContentLength? then 12
    else if h.MatchingTransferEncoding? then 15
    else if h.MatchingUpgrade? || h.TeMatchingChunked? || h.ConnMatchingUpgrade? then 5
    else if h.ConnMatchingKeepAlive? then 8
    else if h.ConnMatchingClose? then 3
    else if h.TeTokenStart? || h.ConnTokenStart? then 0
    else 17
  }

  predicate MatcherOk(m: Matcher) {
    m.index <= IndexLimit(m.h)
  }

  /** Header scanning: the matcher is in range and in the family of states its loop expects. */
  predicate HeaderOk(st: Parser) {
    && (st.state.HeaderField? || IsBeforeValue(st.state) ==> IsNameState(st.headerState))
    && (st.state.HeaderValue? ==> !st.headerState.Connection? && !st.headerState.TransferEncoding?)
    && (st.state.HeaderField? || st.state.HeaderValue? ==> MatcherOk(Matcher(st.headerState, st.index)))
    && (st.state.ReqMethod? ==> st.index <= |MethodName(st.verb)|)
  }

  /** Body framing: what the asserts of the body and chunk states demand. */
  predicate FramingOk(st: Parser) {
    && (st.state.BodyIdentity? || st.state.ChunkData? ==> 0 < st.contentLength < ULLONG_MAX)
    && (st.state.ChunkDataAlmostDone? ==> st.contentLength == 0)
    && (IsChunkHeader(st.state) || st.state.ChunkData? || st.state.ChunkDataAlmostDone? || st.state.ChunkDataDone?
        ==> st.flags.chunked)
  }

  predicate IsPartialSize(s: State) {
    s.ChunkSize? || s.ChunkParameters? || s.ChunkSizeAlmostDone?
  }

  /** A declared length is never the "no length" sentinel. */
  predicate LengthOk(st: Parser) {
    && st.contentLength <= ULLONG_MAX
    && (st.flags.contentLength || IsPartialSize(st.state) ==> st.contentLength < ULLONG_MAX)
  }

  predicate Sound(st: Parser) {
    HeaderOk(st) && FramingOk(st) && LengthOk(st)
  }

  /** Between two octets, `nread` is within bounds and is 0 before a chunk size. */
  predicate Valid(st: Parser) {
    && Sound(st)
    && st.nread <= MAX_HEADER_SIZE
    && (st.state.ChunkSizeStart? ==> st.nread == 0)
  }

  // ---------- every case keeps it ----------

  lemma NameKeeps(m: Matcher, c: byte)
    requires MatcherOk(m) && IsNameState(m.h)
    ensures MatcherOk(NameOctet(m, c)) && IsNameState(NameOctet(m, c).h)
  {
  }

  lemma CodingKeeps(m: Matcher, ch: byte, c: byte)
    requires MatcherOk(m) && IsCoding(m.h)
    ensures MatcherOk(CodingOctet(m, ch, c)) && (IsCoding(CodingOctet(m, ch, c).h) || CodingOctet(m, ch, c).h.General?)
  {
  }

  lemma OptionKeeps(m: Matcher, ch: byte, c: byte)
    requires MatcherOk(m) && IsOption(m.h)
    ensures MatcherOk(OptionOctet(m, ch, c)) && (IsOption(OptionOctet(m, ch, c).h) || OptionOctet(m, ch, c).h.General?)
  {
  }

  /** The states the value loop does not rule out by `assert(0)`. */
  predicate IsValueState(h: HeaderState) {
    !h.Connection? && !h.TransferEncoding?
  }

  predicate ValueScanOk(v: ValueScan) {
    && MatcherOk(v.m) && IsValueState(v.m.h)
    && v.length <= ULLONG_MAX && (v.flags.contentLength ==> v.length < ULLONG_MAX)
  }

  /** The conservative test keeps the accumulator exact: no wrap-around, and never the sentinel. */
  lemma LengthKeeps(v: ValueScan, ch: byte)
    requires ValueScanOk(v) && IsLength(v.m.h)
    ensures ValueScanOk(LengthOctet(v, ch)) && LengthOctet(v, ch).flags == v.flags
    ensures LengthOctet(v, ch).errno == OK && IsNum(ch) && v.errno == OK ==>
      LengthOctet(v, ch).length == v.length * 10 + (ch - '0' as int) < ULLONG_MAX
  {
  }

  lemma FlagKeeps(f: Flags, h: HeaderState)
    ensures ConnectionFlag(f, h).contentLength == f.contentLength && ConnectionFlag(f, h).chunked == f.chunked
  {
  }

  lemma ValueKeeps(v: ValueScan, lenient: bool, ch: byte)
    requires ValueScanOk(v)
    ensures var w := ValueStep(v, lenient, ch);
      ValueScanOk(w) && w.flags.contentLength == v.flags.contentLength && w.flags.chunked == v.flags.chunked
  {
    hide CodingOctet, OptionOctet, LengthOctet, ConnectionFlag, IndexLimit;
    if IsLength(v.m.h) {
      LengthKeeps(v, ch);
    } else if IsCoding(v.m.h) {
      CodingKeeps(v.m, ch, Lower(ch));
    } else if IsOption(v.m.h) {
      OptionKeeps(v.m, ch, Lower(ch));
      FlagKeeps(v.flags, v.m.h);
    } else {
      assert v.m.index <= 17 by { IndexBound(v.m.h); }
      assert IndexLimit(General) == 17 by { IndexBound(General); }
    }
  }

  lemma IndexBound(h: HeaderState)
    ensures IndexLimit(h) <= 17 && IndexLimit(General) == 17
  {
  }

  lemma NameStepMatcher(n: NameScan, ch: byte)
    ensures NameStep(n, ch).m == NameOctet(n.m, Token(ch))
  {
  }

  lemma FirstValueKeeps(h: HeaderState, c: byte)
    ensures IsValueState(FirstValueState(h, c))
  {
  }

  /** The case kept the invariant, and left `nread` alone or reset it. */
  predicate SoundAfter(st: Parser, e: Effect) {
    && (e.st.errno == OK ==> Sound(e.st))
    && e.st.nread <= st.nread
    && (e.st.errno == OK && e.st.state.ChunkSizeStart? ==> e.st.nread == 0)
  }

  lemma FramingVacuous(st: Parser)
    requires !IsChunkHeader(st.state) && !IsBody(st.state)
    ensures FramingOk(st)
  {
  }

  lemma LengthSame(st: Parser, st': Parser)
    requires LengthOk(st) && st'.contentLength == st.contentLength && st'.flags.contentLength == st.flags.contentLength
    requires IsPartialSize(st'.state) ==> IsPartialSize(st.state)
    ensures LengthOk(st')
  {
  }

  /** The states that HeaderOk says nothing about. */
  predicate IsPlain(s: State) {
    !s.HeaderField? && !s.HeaderValue? && !IsBeforeValue(s) && !s.ReqMethod?
  }

  lemma PlainSound(st: Parser, st': Parser)
    requires Sound(st) && IsPlain(st'.state) && FramingOk(st')
    requires st'.contentLength == st.contentLength && st'.flags.contentLength == st.flags.contentLength
    requires IsPartialSize(st'.state) ==> IsPartialSize(st.state)
    ensures Sound(st')
  {
    LengthSame(st, st');
    hide FramingOk, LengthOk, MethodName, IndexLimit, IsNameState;
  }

  /** Moving between the states that precede a value keeps the name that was matched. */
  lemma BeforeValueSound(st: Parser, s: State)
    requires Sound(st) && IsBeforeValue(st.state) && IsBeforeValue(s)
    ensures Sound(st.(state := s))
  {
    var st' := st.(state := s);
    FramingVacuous(st');
    LengthSame(st, st');
    hide FramingOk, LengthOk, MethodName, IndexLimit, IsNameState;
  }

  lemma FieldStartFrames(st: Parser, ch: byte)
    requires st.errno == OK && st.state == HeaderFieldStart
    ensures var st' := ActHeaderFieldStart(st, ch).st;
      && FramingOk(st') && !IsPartialSize(st'.state)
      && st'.contentLength == st.contentLength && st'.flags == st.flags
  {
    hide Lawful, Token, FirstHeaderState;
  }

  lemma FieldStartKeeps(st: Parser, ch: byte)
    requires st.errno == OK && Sound(st) && st.state == HeaderFieldStart
    ensures SoundAfter(st, ActHeaderFieldStart(st, ch))
  {
    FieldStartFrames(st, ch);
    LengthSame(st, ActHeaderFieldStart(st, ch).st);
    hide Lawful, Token, MethodName, FramingOk, LengthOk;
  }

  lemma WithNameSound(st: Parser, n: NameScan)
    requires st.state == HeaderField && Sound(st) && MatcherOk(n.m) && IsNameState(n.m.h)
    ensures Sound(WithName(st, n))
  {
    FramingVacuous(WithName(st, n));
    LengthSame(st, WithName(st, n));
    hide IndexLimit, MethodName, FramingOk, LengthOk, IsNameState;
  }

  lemma FieldKeeps(st: Parser, ch: byte)
    requires st.errno == OK && Sound(st) && st.state == HeaderField
    ensures SoundAfter(st, ActHeaderField(st, ch))
  {
    hide Lawful, Token, NameStep, NameOctet, IsNameState, MethodName, IndexLimit;
    if Token(ch) != 0 {
      NameKeeps(NameOf(st).m, Token(ch));
      NameStepMatcher(NameOf(st), ch);
      WithNameSound(st, NameStep(NameOf(st), ch));
    }
  }

  lemma WithValueSound(st: Parser, v: ValueScan)
    requires st.state == HeaderValue && ValueScanOk(v)
    ensures Sound(WithValue(st, v))
  {
    FramingVacuous(WithValue(st, v));
    hide IndexLimit, MethodName, FramingOk;
  }

  lemma ValueOctetKeeps(st: Parser, ch: byte)
    requires st.errno == OK && Sound(st) && st.state == HeaderValue
    ensures SoundAfter(st, ActHeaderValue(st, ch))
  {
    hide Lawful, ValueStep, IndexLimit, IsNameState, MethodName;
    if ch != CR && ch != LF {
      ValueKeeps(ValueOf(st), st.lenient, ch);
      WithValueSound(st, ValueStep(ValueOf(st), st.lenient, ch));
    }
  }

  lemma ValueStartKeeps(st: Parser, ch: byte)
    requires st.errno == OK && Sound(st) && (st.state == HeaderValueStart || st.state == HeaderValueDiscardWs)
    ensures SoundAfter(st, ActHeaderValueStart(st, ch))
  {
    var st' := StartValue(st, ch);
    FirstValueKeeps(st.headerState, Lower(ch));
    FramingVacuous(st');
    hide Lawful, FirstValueState, IndexLimit, IsNameState, FramingOk, MethodName;
  }

  lemma FoldLineKeeps(st: Parser)
    requires st.errno == OK && Sound(st) && st.state == HeaderValueLws
    ensures Sound(FoldLine(st)) && FoldLine(st).nread == st.nread
  {
    FramingVacuous(FoldLine(st));
    LengthSame(st, FoldLine(st));
    hide FramingOk, LengthOk, IndexLimit, IsNameState, MethodName;
  }

  lemma FinishHeaderKeeps(st: Parser)
    requires st.errno == OK && Sound(st) && (st.state == HeaderValueLws || st.state == HeaderValueDiscardLws)
    ensures Sound(FinishHeader(st)) && FinishHeader(st).nread == st.nread
  {
    FlagKeeps(st.flags, st.headerState);
    FramingVacuous(FinishHeader(st));
    LengthSame(st, FinishHeader(st));
    hide FramingOk, LengthOk, ConnectionFlag, IndexLimit, IsNameState, MethodName;
  }

  lemma LwsKeeps(st: Parser, ch: byte)
    requires st.errno == OK && Sound(st) && st.state == HeaderValueLws
    ensures SoundAfter(st, ActHeaderValueLws(st, ch))
  {
    hide Lawful, Sound, FoldLine, FinishHeader;
    FoldLineKeeps(st);
    FinishHeaderKeeps(st);
  }

  lemma ExpectKeeps(st: Parser, ch: byte, want: byte, err: Errno, s: State)
    requires st.errno == OK && err != OK && Quiet(st.state) && Quiet(s)
    requires InStartLine(st.state) ==> (InStartLine(s) || s.HeaderFieldStart?) && !s.ReqMethod?
    requires Sound(st) && Sound(st.(state := s)) && !s.ChunkSizeStart?
    ensures SoundAfter(st, Expect(st, ch, want, err, s))
  {
    hide Lawful, Sound, Quiet;
  }

  lemma AlmostDoneSound(st: Parser)
    requires Sound(st) && st.state == HeaderAlmostDone
    ensures Sound(st.(state := HeaderValueLws))
  {
    hide Sound;
    FramingVacuous(st.(state := HeaderValueLws));
    PlainSound(st, st.(state := HeaderValueLws));
  }

  lemma HeadersKeep(st: Parser, ch: byte)
    requires st.errno == OK && Sound(st) && IsHeader(st.state)
    ensures SoundAfter(st, ActHeaders(st, ch))
  {
    hide Lawful, Sound, SoundAfter, Expect,
         ActHeaderField, ActHeaderFieldStart, ActHeaderValueStart, ActHeaderValue, ActHeaderValueLws;
    if st.state.HeaderField? {
      FieldKeeps(st, ch);
    } else if st.state.HeaderFieldStart? {
      FieldStartKeeps(st, ch);
    } else if st.state.HeaderValueStart? {
      ValueStartKeeps(st, ch);
    } else if st.state.HeaderValue? {
      ValueOctetKeeps(st, ch);
    } else if st.state.HeaderAlmostDone? {
      AlmostDoneSound(st);
      ExpectKeeps(st, ch, LF, LF_EXPECTED, HeaderValueLws);
    } else {
      LwsKeeps(st, ch);
    }
  }

  lemma DiscardWsKeeps(st: Parser, ch: byte)
    requires st.errno == OK && Sound(st) && st.state == HeaderValueDiscardWs
    ensures SoundAfter(st, ActDiscardWs(st, ch))
  {
    BeforeValueSound(st, HeaderValueDiscardWsAlmostDone);
    BeforeValueSound(st, HeaderValueDiscardLws);
    hide Lawful, Sound, ActHeaderValueStart;
    ValueStartKeeps(st, ch);
  }

  lemma DiscardLwsKeeps(st: Parser, ch: byte)
    requires st.errno == OK && Sound(st) && st.state == HeaderValueDiscardLws
    ensures SoundAfter(st, ActHeaderValueDiscardLws(st, ch))
  {
    BeforeValueSound(st, HeaderValueDiscardWs);
    hide Lawful, Sound, FinishHeader;
    FinishHeaderKeeps(st);
  }

  lemma BeforeValueKeeps(st: Parser, ch: byte)
    requires st.errno == OK && Sound(st) && IsBeforeValue(st.state)
    ensures SoundAfter(st, ActBeforeValue(st, ch))
  {
    hide Lawful, Sound, SoundAfter, ActDiscardWs, ActHeaderValueDiscardLws, Expect;
    if st.state.HeaderValueDiscardWs? {
      DiscardWsKeeps(st, ch);
    } else if st.state.HeaderValueDiscardLws? {
      DiscardLwsKeeps(st, ch);
    } else {
      BeforeValueSound(st, HeaderValueDiscardLws);
      ExpectKeeps(st, ch, LF, STRICT, HeaderValueDiscardLws);
    }
  }

  // ---------- end of headers and bodies ----------

  lemma NewMessageState(st: Parser)
    ensures NewMessage(st) in {StartReq, StartRes, Dead}
  {
    hide ShouldKeepAlive;
  }

  lemma CompleteKeeps(st: Parser, next: Next)
    requires st.errno == OK && Sound(st) && next != Again && Quiet(st.state)
    ensures SoundAfter(st, CompleteMessage(st, next))
  {
    NewMessageState(st);
    var st' := st.(state := NewMessage(st));
    hide Lawful, NewMessage;
    FramingVacuous(st');
    PlainSound(st, st');
    hide Sound;
  }

  lemma HeadersAlmostDoneKeeps(st: Parser, ch: byte)
    requires st.errno == OK && Sound(st) && st.state == HeadersAlmostDone
    ensures SoundAfter(st, ActHeadersAlmostDone(st, ch))
  {
    var a, b := st.(state := MessageDone), HeadersCompleted(st);
    PlainSound(st, a);
    PlainSound(st, b);
    hide Lawful, Sound, LengthConflict;
  }

  lemma FramingKeeps(st: Parser)
    requires st.errno == OK && Sound(st) && st.state == HeadersDone && st.nread == 0
    ensures SoundAfter(st, ActFraming(st))
  {
    hide Lawful, CompleteMessage, MethodName, IndexLimit, IsNameState;
    CompleteKeeps(st, Consume);
  }

  lemma HeadersDoneKeeps(st: Parser, ch: byte)
    requires st.errno == OK && Sound(st) && st.state == HeadersDone
    ensures SoundAfter(st, ActHeadersDone(st, ch))
  {
    var st' := st.(nread := 0);
    assert Sound(st') by { PlainSound(st, st'); }
    FramingKeeps(st');
    CompleteKeeps(st', Exit);
    CompleteKeeps(st', Consume);
    hide Lawful, Sound, CompleteMessage, ActFraming, HandsOver;
  }

  /** In a body or chunk state only the framing and the length matter. */
  lemma BodySound(st: Parser)
    requires IsPlain(st.state) && FramingOk(st) && LengthOk(st)
    ensures Sound(st)
  {
    hide FramingOk, LengthOk, MethodName, IndexLimit, IsNameState;
  }

  lemma BodyIdentityKeeps(st: Parser, ch: byte)
    requires st.errno == OK && Sound(st) && st.state == BodyIdentity
    ensures SoundAfter(st, ActBodyIdentity(st, ch))
  {
    hide Lawful, HeaderOk;
    BodySound(ActBodyIdentity(st, ch).st);
  }

  lemma ChunkDataKeeps(st: Parser, ch: byte)
    requires st.errno == OK && Sound(st) && st.state == ChunkData
    ensures SoundAfter(st, ActChunkData(st, ch))
  {
    hide Lawful, HeaderOk;
    BodySound(ActChunkData(st, ch).st);
  }

  lemma ChunkEndKeeps(st: Parser, ch: byte)
    requires st.errno == OK && Sound(st)
    ensures st.state == ChunkDataAlmostDone ==> SoundAfter(st, ActChunkDataAlmostDone(st, ch))
    ensures st.state == ChunkDataDone ==> SoundAfter(st, ActChunkDataDone(st, ch))
  {
    hide Lawful, HeaderOk;
    if st.state == ChunkDataAlmostDone {
      BodySound(ActChunkDataAlmostDone(st, ch).st);
    } else if st.state == ChunkDataDone {
      BodySound(ActChunkDataDone(st, ch).st);
    }
  }

  lemma BodyEofKeeps(st: Parser, ch: byte)
    requires st.errno == OK && Sound(st) && st.state == BodyIdentityEof
    ensures SoundAfter(st, ActBodyIdentityEof(st, ch))
  {
    hide Lawful, Sound;
  }

  lemma BodyKeeps(st: Parser, ch: byte)
    requires st.errno == OK && Sound(st) && IsBody(st.state)
    ensures SoundAfter(st, ActBody(st, ch))
  {
    hide Lawful, CompleteMessage, Sound, SoundAfter, ActBodyIdentity, ActChunkData, ActChunkDataAlmostDone,
         ActChunkDataDone, ActBodyIdentityEof;
    if st.state.BodyIdentity? {
      BodyIdentityKeeps(st, ch);
    } else if st.state.ChunkData? {
      ChunkDataKeeps(st, ch);
    } else if st.state.MessageDone? {
      CompleteKeeps(st, if st.upgrade then Exit else Consume);
    } else if st.state.BodyIdentityEof? {
      BodyEofKeeps(st, ch);
    } else {
      ChunkEndKeeps(st, ch);
    }
  }

  lemma ChunkSizeStartKeeps(st: Parser, ch: byte)
    requires st.errno == OK && Sound(st) && st.state == ChunkSizeStart
    ensures SoundAfter(st, ActChunkSizeStart(st, ch))
  {
    hide Lawful, HeaderOk;
    var e := ActChunkSizeStart(st, ch);
    if e.st.errno == OK {
      BodySound(e.st);
    }
  }

  /** The conservative test keeps the accumulator exact: no wrap-around, and never the sentinel. */
  lemma ChunkSizeExact(st: Parser, ch: byte)
    requires st.errno == OK && st.state == ChunkSize && Unhex(ch) != -1
    requires ActChunkSize(st, ch).st.errno == OK && ch != CR
    ensures ActChunkSize(st, ch).st.contentLength == st.contentLength * 16 + Unhex(ch) < ULLONG_MAX
  {
    hide Lawful;
    assert Unhex(ch) < 16;
  }

  lemma ChunkSizeKeeps(st: Parser, ch: byte)
    requires st.errno == OK && Sound(st) && st.state == ChunkSize
    ensures SoundAfter(st, ActChunkSize(st, ch))
  {
    hide Lawful, HeaderOk, Unhex;
    var e := ActChunkSize(st, ch);
    if e.st.errno == OK {
      if ch != CR && Unhex(ch) != -1 {
        ChunkSizeExact(st, ch);
      }
      BodySound(e.st);
    }
  }

  lemma ChunkSizeEndKeeps(st: Parser, ch: byte)
    requires st.errno == OK && Sound(st) && st.state == ChunkSizeAlmostDone
    ensures SoundAfter(st, ActChunkSizeAlmostDone(st, ch))
  {
    hide Lawful, HeaderOk;
    var e := ActChunkSizeAlmostDone(st, ch);
    if e.st.errno == OK {
      BodySound(e.st);
    }
  }

  lemma ChunkParametersKeeps(st: Parser, ch: byte)
    requires st.errno == OK && Sound(st) && st.state == ChunkParameters
    ensures SoundAfter(st, ActChunkParameters(st, ch))
  {
    hide Lawful, HeaderOk;
    BodySound(ActChunkParameters(st, ch).st);
  }

  lemma ChunkHeaderKeeps(st: Parser, ch: byte)
    requires st.errno == OK && Sound(st) && IsChunkHeader(st.state)
    ensures SoundAfter(st, ActChunkHeader(st, ch))
  {
    hide Lawful, Sound, SoundAfter, ActChunkSizeStart, ActChunkSize, ActChunkParameters, ActChunkSizeAlmostDone;
    if st.state.ChunkSizeStart? {
      ChunkSizeStartKeeps(st, ch);
    } else if st.state.ChunkSize? {
      ChunkSizeKeeps(st, ch);
    } else if st.state.ChunkParameters? {
      ChunkParametersKeeps(st, ch);
    } else {
      ChunkSizeEndKeeps(st, ch);
    }
  }

  // ---------- start lines ----------

  lemma StartLineSound(st: Parser, st': Parser)
    requires Sound(st) && StartLineLaw(st, st') && (st'.state.ReqMethod? ==> st'.index <= |MethodName(st'.verb)|)
    ensures Sound(st')
  {
    FramingVacuous(st');
    hide FramingOk, MethodName, IndexLimit, IsNameState;
  }

  lemma MethodIndex(m: Method, index: nat, ch: byte)
    ensures var (known, m') := NextMethod(m, index, ch); known ==> index + 1 <= |MethodName(m')|
  {
  }

  lemma MethodLiteral(m: Method, index: nat)
    ensures LiteralAt(MethodName(m), index) != NUL ==> index + 1 <= |MethodName(m)|
    ensures |MethodName(m)| >= 3
  {
  }

  /** `matcher[parser->index]` always reads inside the method name or its terminating NUL. */
  lemma ReqMethodKeeps(st: Parser, ch: byte)
    requires st.errno == OK && Sound(st) && st.state == ReqMethod
    ensures SoundAfter(st, ActReqMethod(st, ch))
  {
    MethodIndex(st.verb, st.index, ch);
    MethodLiteral(st.verb, st.index);
    hide MethodName, NextMethod, LiteralAt, Sound;
    var st' := ActReqMethod(st, ch).st;
    if st'.errno == OK {
      StartLineSound(st, st');
    }
  }

  lemma StartReqKeeps(st: Parser, ch: byte)
    requires st.errno == OK && Sound(st) && st.state == StartReq
    ensures SoundAfter(st, ActStartReq(st, ch))
  {
    hide MethodName, FirstMethod, IsAlpha, Sound, Token;
    var st' := ActStartReq(st, ch).st;
    MethodLiteral(st'.verb, 0);
    StartLineSound(st, st');
  }

  lemma ResOrRespKeeps(st: Parser, ch: byte)
    requires st.errno == OK && Sound(st) && st.state == ResOrRespH
    ensures SoundAfter(st, ActResOrRespH(st, ch))
  {
    hide MethodName, Sound;
    var st' := ActResOrRespH(st, ch).st;
    MethodLiteral(st'.verb, 0);
    StartLineSound(st, st');
  }

  /** Every other octet of a start line, by what each of its cases promises. */
  lemma StartLineKeeps(st: Parser, e: Effect)
    requires st.errno == OK && Sound(st) && InStartLine(st.state) && Lawful(st, e)
    requires !st.state.ReqMethod? && !st.state.StartReq? && !st.state.ResOrRespH?
    ensures SoundAfter(st, e)
  {
    StartLineSound(st, e.st);
    hide Sound;
  }

  // ---------- the whole switch, and whole runs ----------

  lemma ActKeeps(st: Parser, ch: byte)
    requires st.errno == OK && Sound(st)
    ensures SoundAfter(st, Act(st, ch))
  {
    hide Lawful, Sound, SoundAfter, ActHeaders, ActBeforeValue, ActBody, ActChunkHeader, ActStart, ActResponseProtocol,
         ActResponseVersion, ActResponseStatus, ActHeadersAlmostDone, ActHeadersDone, ActReqMethod, ActSpacesBeforeUrl,
         ActUrl, ActRequestProtocol, ActRequestVersion;
    var s := st.state;
    if IsHeader(s) {
      HeadersKeep(st, ch);
    } else if IsBeforeValue(s) {
      BeforeValueKeeps(st, ch);
    } else if IsBody(s) {
      BodyKeeps(st, ch);
    } else if IsChunkHeader(s) {
      ChunkHeaderKeeps(st, ch);
    } else if s == HeadersAlmostDone {
      HeadersAlmostDoneKeeps(st, ch);
    } else if s == HeadersDone {
      HeadersDoneKeeps(st, ch);
    } else if s == ReqMethod {
      ReqMethodKeeps(st, ch);
    } else if s == StartReq || s == ResOrRespH {
      MethodStartKeeps(st, ch);
    } else {
      StartLineKeeps(st, Act(st, ch));
    }
  }

  lemma MethodStartKeeps(st: Parser, ch: byte)
    requires st.errno == OK && Sound(st) && (st.state == StartReq || st.state == ResOrRespH)
    ensures SoundAfter(st, Act(st, ch))
  {
    hide Lawful, Sound, SoundAfter, ActStartReq, ActResOrRespH;
    if st.state == StartReq {
      StartReqKeeps(st, ch);
    } else {
      ResOrRespKeeps(st, ch);
    }
  }

  /** A chain of reexecutions keeps the invariant; `nread` was counted once before it. */
  lemma {:induction false} DispatchKeeps(m: Machine, ch: byte)
    requires m.st.errno == OK && Sound(m.st)
    ensures var st' := Dispatch(m, ch).st;
      && st'.nread <= m.st.nread
      && (st'.errno == OK ==> Sound(st') && (st'.state.ChunkSizeStart? ==> st'.nread == 0))
    decreases Rank(m.st.state)
  {
    hide Sound, Act;
    var e := Act(m.st, ch);
    ActKeeps(m.st, ch);
    if e.next == Again {
      DispatchKeeps(Perform(m, e.out, ch).(st := e.st), ch);
    }
  }

  lemma SoundNread(st: Parser, st': Parser)
    requires Sound(st) && st' == st.(nread := st'.nread, errno := st'.errno)
    ensures Sound(st')
  {
    hide MethodName, IndexLimit, IsNameState;
  }

  lemma ByteStepKeeps(m: Machine, ch: byte)
    requires Alive(m) && Valid(m.st)
    ensures ByteStep(m, ch).st.errno == OK ==> Valid(ByteStep(m, ch).st)
  {
    hide Dispatch, Sound, ParsingHeader;
    var counted := Count(m.st);
    SoundNread(m.st, counted);
    if counted.errno == OK {
      DispatchKeeps(m.(st := counted), ch);
    }
  }

  /** Every state reached by any octets is valid, unless the parser has rejected one of them. */
  lemma {:induction false} RunKeeps(m: Machine, s: seq<byte>)
    requires Valid(m.st)
    ensures Run(m, s).st.errno == OK ==> Valid(Run(m, s).st)
    decreases |s|
  {
    hide Valid, ByteStep;
    if !Alive(m) {
      RunStopped(m, s);
    } else if s != [] {
      ByteStepKeeps(m, s[0]);
      if ByteStep(m, s[0]).st.errno == OK {
        RunKeeps(ByteStep(m, s[0]), s[1..]);
      } else {
        RunStopped(ByteStep(m, s[0]), s[1..]);
      }
    }
  }
}
