/** The header lines of a message and the blank line behind them: what they record, and how the body is framed. */
module HttpBlock {
  import opened Bytes
  import opened HttpTypes
  import opened HttpAct
  import opened HttpMachine
  import opened HttpRuns
  import opened HttpNames
  import opened HttpLines
  import opened HttpLength
  import opened HttpResponse
  import opened HttpOptions
  import opened HttpTransfer
  import HttpChunked

  // ---------- the header lines ----------

  /** A request or a response in front of its blank line, and not the trailer of one. */
  predicate Ordinary(st: Parser) {
    st.kind != Both && !st.flags.trailing && !st.flags.skipBody
  }

  lemma OrdinaryKept(a: Parser, b: Parser)
    requires Ordinary(a) && SameMessage(a, b)
    ensures Ordinary(b) && b.httpMajor == a.httpMajor && b.httpMinor == a.httpMinor && b.statusCode == a.statusCode
    ensures SameSettings(a, b) && b.kind == a.kind && b.verb == a.verb
  {
  }

  /** The flags stand for exactly what the lines ask for. */
  predicate Recorded(hs: seq<Header>, f: Flags) {
    && (f.chunked <==> Chunks(hs)) && (f.upgrade <==> Upgrades(hs))
    && (f.keepAlive <==> AskFor(hs, KeepAliveOption)) && (f.close <==> Closes(hs))
    && (f.connUpgrade <==> AskFor(hs, UpgradeOption))
  }

  /** The length and the coding stand for what the lines declare. */
  predicate Declared(hs: seq<Header>, st: Parser) {
    && st.contentLength == (if HasLength(hs) && DeclaredBy(hs).Some? then DeclaredBy(hs).value else ULLONG_MAX)
    && (st.flags.contentLength <==> HasLength(hs)) && (st.usesTransferEncoding <==> HasEncodingLike(hs))
  }

  /** The parser after the header lines, once the next octet has finished the last of them. */
  predicate BlockEffect(m: Machine, hs: seq<Header>, n: Machine) {
    && Normal(n) && SameMessage(m.st, n.st)
    && n.st.nread == m.st.nread + |Lines(hs)| && n.consumed == m.consumed + |Lines(hs)|
    && n.log == m.log + Pairs(hs) && Declared(hs, n.st) && Recorded(hs, n.st.flags)
  }

  /** Nothing has been recorded yet. */
  predicate Blank(st: Parser) {
    !st.usesTransferEncoding && st.flags == NoFlags && st.contentLength == ULLONG_MAX
  }

  lemma LinesRecorded(hs: seq<Header>, f: Flags)
    requires FlagsEffects(NoFlags, hs, f)
    ensures Recorded(hs, f)
  {
    hide Chunks, Upgrades, AskFor;
  }

  lemma LinesBlock(m: Machine, hs: seq<Header>, n: Machine)
    requires LinesEffect(m, hs, n) && Blank(m.st)
    ensures BlockEffect(m, hs, n)
  {
    hide Lines, Pairs, HasEncodingLike, HasLength, DeclaredBy, Recorded, FlagsEffects, SameMessage;
    LinesRecorded(hs, n.st.flags);
  }

  /** The header lines of a message: refused, at the latest by the next octet, exactly for the lengths they declare. */
  lemma RunBlock(m: Machine, hs: seq<Header>)
    requires Normal(m) && AreHeaderTexts(hs) && Blank(m.st) && m.st.nread + |Lines(hs)| <= MAX_HEADER_SIZE
    ensures var r := Run(m, Lines(hs));
      if LengthsOk(hs, false) then AtLine(r) && !Refused(r) && BlockEffect(m, hs, NextLine(r))
      else r.st.errno != OK || (AtLine(r) && Refused(r))
  {
    hide Run, Lines, AreHeaderTexts, LinesEffect, NextLine, Refused, AtLine, LengthsOk, BlockEffect;
    RunLines(m, hs);
    var r := Run(m, Lines(hs));
    if r.st.errno == OK && !Refused(r) {
      LinesBlock(m, hs, NextLine(r));
    }
  }

  lemma BlockNread(m1: Machine, hs: seq<Header>, r: Machine)
    requires BlockEffect(m1, hs, NextLine(r))
    ensures r.st.nread == m1.st.nread + |Lines(hs)|
  {
    hide NextLine, Lines, Pairs, Declared, Recorded;
    NextLineNread(r, 0);
  }

  /** The lines and what follows them, whose first octet finishes the last line. */
  lemma RunBehindBlock(m: Machine, hs: seq<Header>, rest: seq<byte>)
    requires Normal(m) && AreHeaderTexts(hs) && Blank(m.st) && m.st.nread + |Lines(hs)| < MAX_HEADER_SIZE
    requires rest != [] && rest[0] != SP && rest[0] != HT
    ensures if LengthsOk(hs, false) then
              var n := NextLine(Run(m, Lines(hs)));
              BlockEffect(m, hs, n) && Run(m, Lines(hs) + rest) == Run(n, rest)
            else Run(m, Lines(hs) + rest).st.errno != OK
  {
    hide Run, Lines, AreHeaderTexts, NextLine, Refused, AtLine, LengthsOk, BlockEffect, Blank;
    RunBlock(m, hs);
    RunConcat(m, Lines(hs), rest);
    var r := Run(m, Lines(hs));
    if LengthsOk(hs, false) {
      BlockNread(m, hs, r);
      RunFromLine(r, rest);
    } else if r.st.errno != OK {
      RunStopped(r, rest);
    } else {
      RunFromLine(r, rest);
    }
  }

  /** A declared length is never the sentinel. */
  lemma {:induction false} DeclaredBelow(hs: seq<Header>)
    ensures DeclaredBy(hs).Some? ==> DeclaredBy(hs).value < ULLONG_MAX
    decreases |hs|
  {
    hide IsLengthName, LengthFrom, IsNum;
    if hs != [] {
      if IsLengthName(hs[0].name) {
        LengthOfBelow(hs[0].value);
      } else {
        DeclaredBelow(hs[1..]);
      }
    }
  }

  lemma LengthOfBelow(v: seq<byte>)
    ensures LengthOf(v).Some? ==> LengthOf(v).value < ULLONG_MAX
  {
    hide LengthFrom;
    if v != [] && IsNum(v[0]) {
      LengthBelow(v[0] - '0' as int, v[1..]);
    }
  }

  // ---------- the connection behind the message ----------

  /** Whether the connection stays open behind a message of version x.y that says itself where it ends. */
  predicate StaysOpen(x: byte, y: byte, hs: seq<Header>) {
    if x != '0' as int && y != '0' as int then !Closes(hs) else AskFor(hs, KeepAliveOption)
  }

  /** The state for the next message, or the end of the connection. */
  function NextStart(kind: Kind, open: bool): State {
    if !open then Dead else if kind == Request then StartReq else StartRes
  }

  /** NEW_MESSAGE() for such a message. */
  lemma KeptOpen(st: Parser, x: byte, y: byte, hs: seq<Header>)
    requires IsNum(x) && IsNum(y) && st.httpMajor == DigitOf(x) && st.httpMinor == DigitOf(y)
    requires (st.flags.keepAlive <==> AskFor(hs, KeepAliveOption)) && (st.flags.close <==> Closes(hs))
    requires st.kind == Request || Bodiless(st.statusCode) || st.flags.skipBody || st.flags.chunked
          || (!st.usesTransferEncoding && st.contentLength != ULLONG_MAX)
    ensures NewMessage(st) == NextStart(st.kind, StaysOpen(x, y, hs))
  {
    hide AskFor;
  }

  // ---------- the blank line ----------

  /** How the end of a message is found: no body, chunks, a length, the end of the connection; or the connection is
      handed over to another protocol, or the message is refused. */
  datatype Framing = NoBody | ByChunks | ByLength | ByEof | HandedOver | Unframeable

  /** The statuses that never have a body: 1xx, 204 and 304. */
  predicate Bodiless(code: nat) {
    code / 100 == 1 || code == 204 || code == 304
  }

  /** `upgrade` at the end of the headers, with the answer of on_headers_complete. */
  predicate Upgraded(st: Parser) {
    || st.verdict == SkipBodyAndUpgrade
    || if st.flags.upgrade && st.flags.connUpgrade then st.kind == Request || st.statusCode == 101 else st.verb == CONNECT
  }

  function FramingOf(st: Parser): Framing {
    if Upgraded(st) && (st.verb == CONNECT || st.verdict != Proceed || !HasBody(st)) then HandedOver
    else if st.verdict != Proceed then NoBody
    else if st.flags.chunked then ByChunks
    else if st.usesTransferEncoding then (if st.kind == Request && !st.lenient then Unframeable else ByEof)
    else if st.contentLength == 0 then NoBody
    else if st.contentLength != ULLONG_MAX then ByLength
    else if st.kind == Request || Bodiless(st.statusCode) then NoBody
    else ByEof
  }

  /** The parser at the end of the headers. */
  function HeadersOver(st: Parser): Parser {
    st.(state := HeadersDone, upgrade := Upgraded(st), nread := 0, flags := Answered(st))
  }

  /** The flags with the answer of on_headers_complete. */
  function Answered(st: Parser): Flags {
    if st.verdict == Proceed then st.flags else st.flags.(skipBody := true)
  }

  /** The parser after the blank line: inside the body, or past a message without one. */
  function BodyStart(st: Parser): Parser {
    HeadersOver(st).(state := match FramingOf(st)
                              case ByChunks => ChunkSizeStart
                              case ByLength => BodyIdentity
                              case ByEof => BodyIdentityEof
                              case _ => NewMessage(HeadersOver(st)))
  }

  lemma BodyStartKeeps(st: Parser)
    ensures BodyStart(st) == st.(state := BodyStart(st).state, upgrade := Upgraded(st), nread := 0, flags := Answered(st))
  {
    hide NewMessage, FramingOf, Upgraded, Answered;
  }

  /** The message is over at the blank line. */
  predicate EndsMessage(f: Framing) {
    f == NoBody || f == HandedOver
  }

  function BlankEvents(f: Framing): seq<Event> {
    [HeadersComplete] + if EndsMessage(f) then [MessageComplete] else []
  }

  lemma NoBodyNeeded(st: Parser)
    requires !st.flags.skipBody && st.kind != Both
    requires !st.usesTransferEncoding && !st.flags.chunked && st.contentLength == ULLONG_MAX
    ensures MessageNeedsEof(st) <==> st.kind == Response && !Bodiless(st.statusCode)
  {
  }

  lemma FramingExact(st: Parser)
    requires st.errno == OK && Announceable(st) && st.verdict == Proceed && FramingOf(st) != HandedOver
    ensures ActFraming(HeadersOver(st)) ==
      if FramingOf(st) == Unframeable then Fail(HeadersOver(st), INVALID_TRANSFER_ENCODING)
      else Effect(BodyStart(st), if FramingOf(st) == NoBody then Notify(MessageComplete) else Nothing, Consume)
  {
    hide Lawful, NewMessage, MessageNeedsEof, HasBody, Upgraded;
    assert !HeadersOver(st).flags.skipBody;
    if !st.usesTransferEncoding && !st.flags.chunked && st.contentLength == ULLONG_MAX {
      NoBodyNeeded(HeadersOver(st));
    }
  }

  lemma ActBlankLf(st: Parser)
    requires st.errno == OK && st.state == HeadersAlmostDone && Ordinary(st)
    ensures Act(st, LF) ==
      if LengthConflict(st) then Fail(st, UNEXPECTED_CONTENT_LENGTH)
      else Effect(st.(state := HeadersDone, upgrade := Upgraded(st), flags := Answered(st)), Notify(HeadersComplete), Again)
  {
    hide Lawful, LengthConflict;
  }

  /** The flags say at most what on_headers_complete has answered. */
  predicate Announceable(st: Parser) {
    st.kind != Both && !st.flags.trailing && (st.flags.skipBody ==> st.verdict != Proceed)
  }

  /** A parser that has just announced the end of the headers. */
  predicate AtHeadersDone(st: Parser) {
    && st.errno == OK && st.state == HeadersDone && st.kind != Both && !st.flags.trailing
    && st.upgrade == Upgraded(st) && (st.flags.skipBody <==> st.verdict != Proceed)
  }

  lemma ActBlankDone(st: Parser)
    requires AtHeadersDone(st)
    ensures Act(st, LF) ==
      if FramingOf(st) == HandedOver then Effect(BodyStart(st), Notify(MessageComplete), Exit)
      else if st.verdict != Proceed then Effect(BodyStart(st), Notify(MessageComplete), Consume)
      else ActFraming(HeadersOver(st))
  {
    hide Lawful, NewMessage, ActFraming, HandsOver, FramingOf, Upgraded;
    HandsOverExact(st);
    assert HeadersOver(st) == st.(nread := 0);
  }

  lemma HandsOverExact(st: Parser)
    requires Announceable(st)
    ensures HandsOver(HeadersOver(st)) <==> FramingOf(st) == HandedOver
    ensures FramingOf(st) == HandedOver || st.verdict != Proceed ==>
      BodyStart(st) == HeadersOver(st).(state := NewMessage(HeadersOver(st))) && EndsMessage(FramingOf(st))
  {
    hide NewMessage, Upgraded;
  }

  /** The blank line reads only the fields that the lines have left. */
  lemma UpgradedSame(st: Parser, s: State, n: nat, u: bool, f: Flags)
    requires f == st.flags || f == Answered(st)
    ensures Upgraded(st.(state := s, nread := n, upgrade := u, flags := f)) == Upgraded(st)
    ensures HasBody(st.(state := s, nread := n, upgrade := u, flags := f)) == HasBody(st)
  {
  }

  lemma FramingSame(st: Parser, s: State, n: nat, u: bool, f: Flags)
    requires f == st.flags || f == Answered(st)
    ensures FramingOf(st.(state := s, nread := n, upgrade := u, flags := f)) == FramingOf(st)
  {
    hide Upgraded, HasBody;
    UpgradedSame(st, s, n, u, f);
  }

  lemma HeadersOverSame(st: Parser, s: State, n: nat, u: bool, f: Flags)
    requires f == st.flags || f == Answered(st)
    ensures HeadersOver(st.(state := s, nread := n, upgrade := u, flags := f)) == HeadersOver(st)
  {
    hide Upgraded, HasBody;
    UpgradedSame(st, s, n, u, f);
  }

  lemma BodyStartSame(st: Parser, s: State, n: nat, u: bool, f: Flags)
    requires f == st.flags || f == Answered(st)
    ensures var t := st.(state := s, nread := n, upgrade := u, flags := f);
      FramingOf(t) == FramingOf(st) && HeadersOver(t) == HeadersOver(st) && BodyStart(t) == BodyStart(st)
    ensures BodyStart(st).errno == st.errno
  {
    hide NewMessage, FramingOf, Upgraded, Answered;
    FramingSame(st, s, n, u, f);
    HeadersOverSame(st, s, n, u, f);
  }

  /** What the switch does once the headers are announced. */
  lemma ActDoneExact(st: Parser)
    requires AtHeadersDone(st)
    ensures var f := FramingOf(st);
      Act(st, LF) ==
        if f == Unframeable then Fail(HeadersOver(st), INVALID_TRANSFER_ENCODING)
        else Effect(BodyStart(st), if EndsMessage(f) then Notify(MessageComplete) else Nothing,
                    if f == HandedOver then Exit else Consume)
  {
    hide Act, BodyStart, ActFraming, HeadersOver, FramingOf, Upgraded;
    ActBlankDone(st);
    HandsOverExact(st);
    if st.verdict == Proceed && FramingOf(st) != HandedOver {
      FramingExact(st);
    }
  }

  lemma DispatchDone(m: Machine)
    requires AtHeadersDone(m.st) && !m.exited
    ensures var r := Dispatch(m, LF);
      if FramingOf(m.st) == Unframeable then r.st.errno == INVALID_TRANSFER_ENCODING && r.log == m.log
      else r == m.(st := BodyStart(m.st), log := m.log + (if EndsMessage(FramingOf(m.st)) then [MessageComplete] else []),
                   exited := FramingOf(m.st) == HandedOver)
  {
    hide Act, Dispatch, BodyStart, FramingOf, HeadersOver, Upgraded;
    ActDoneExact(m.st);
    DispatchOnce(m, LF, Act(m.st, LF));
    assert m.log + [] == m.log;
  }

  /** The machine that has announced the end of the headers. */
  function Announced(m: Machine): Machine {
    m.(st := m.st.(state := HeadersDone, upgrade := Upgraded(m.st), flags := Answered(m.st)), log := m.log + [HeadersComplete])
  }

  lemma DispatchAnnounced(m: Machine)
    requires m.st.errno == OK && m.st.state == HeadersAlmostDone && Ordinary(m.st) && !m.exited
    ensures if LengthConflict(m.st) then Dispatch(m, LF).st.errno == UNEXPECTED_CONTENT_LENGTH && Dispatch(m, LF).log == m.log
            else Dispatch(m, LF) == Dispatch(Announced(m), LF)
  {
    hide Act, Dispatch, LengthConflict, Upgraded, Ordinary;
    ActBlankLf(m.st);
    DispatchOnce(m, LF, Act(m.st, LF));
  }

  lemma DispatchBlank(m: Machine)
    requires m.st.errno == OK && m.st.state == HeadersAlmostDone && Ordinary(m.st) && !m.exited
    ensures var r := Dispatch(m, LF);
      if LengthConflict(m.st) then r.st.errno == UNEXPECTED_CONTENT_LENGTH && r.log == m.log
      else if FramingOf(m.st) == Unframeable then
        r.st.errno == INVALID_TRANSFER_ENCODING && r.log == m.log + [HeadersComplete]
      else r == m.(st := BodyStart(m.st), log := m.log + BlankEvents(FramingOf(m.st)), exited := FramingOf(m.st) == HandedOver)
  {
    hide Act, Dispatch, BodyStart, FramingOf, LengthConflict, Upgraded, HeadersOver;
    DispatchAnnounced(m);
    if !LengthConflict(m.st) {
      UpgradedSame(m.st, HeadersDone, m.st.nread, Upgraded(m.st), Answered(m.st));
      DispatchDone(Announced(m));
      BodyStartSame(m.st, HeadersDone, m.st.nread, Upgraded(m.st), Answered(m.st));
      assert m.log + [HeadersComplete] + [MessageComplete] == m.log + [HeadersComplete, MessageComplete];
    }
  }

  /** What the blank line does to a message. */
  predicate BlankEffect(m: Machine, n: nat, r: Machine) {
    if LengthConflict(m.st) then r.st.errno == UNEXPECTED_CONTENT_LENGTH && r.log == m.log
    else if FramingOf(m.st) == Unframeable then
      r.st.errno == INVALID_TRANSFER_ENCODING && r.log == m.log + [HeadersComplete]
    else r == m.(st := BodyStart(m.st), log := m.log + BlankEvents(FramingOf(m.st)), consumed := m.consumed + n,
                 exited := FramingOf(m.st) == HandedOver)
  }

  lemma StepBlankLf(m: Machine)
    requires Alive(m) && m.st.state == HeadersAlmostDone && Ordinary(m.st) && m.mark == Closed && m.st.nread < MAX_HEADER_SIZE
    ensures BlankEffect(m, 1, ByteStep(m, LF))
  {
    hide Act, Dispatch, BodyStart, FramingOf, BlankEvents, ByteStep, Count, ParsingHeader, LengthConflict;
    CountAtBlank(m.st);
    StepCounting(m, LF);
    DispatchBlank(m.(st := Count(m.st)));
    BodyStartSame(m.st, m.st.state, m.st.nread + 1, m.st.upgrade, m.st.flags);
  }

  lemma CountAtBlank(st: Parser)
    requires st.state == HeadersAlmostDone && st.nread < MAX_HEADER_SIZE
    ensures Count(st) == st.(nread := st.nread + 1) && (LengthConflict(Count(st)) <==> LengthConflict(st))
  {
    CountHeader(st);
  }

  /** The blank line ends the headers and frames the body, unless they mix both kinds of framing, or a request has a
      coding that leaves its end open. */
  lemma RunBlank(m: Machine)
    requires Normal(m) && Ordinary(m.st) && m.st.nread + 2 <= MAX_HEADER_SIZE
    ensures BlankEffect(m, 2, Run(m, CRLF))
  {
    hide Act, ByteStep, Run, BodyStart, FramingOf, BlankEvents, ParsingHeader, LengthConflict;
    HttpChunked.StepTrailerCr(m);
    StepBlankLf(ByteStep(m, CR));
    ConflictSame(m.st, HeadersAlmostDone, m.st.nread + 1);
    BodyStartSame(m.st, HeadersAlmostDone, m.st.nread + 1, m.st.upgrade, m.st.flags);
    RunCrlf(m);
  }

  lemma ConflictSame(st: Parser, s: State, n: nat)
    ensures LengthConflict(st.(state := s, nread := n)) == LengthConflict(st)
  {
  }
}
