/** Transfer-Encoding over whole runs, however a value is cut or folded: F_CHUNKED is raised only behind a value that
    really ends with the coding "chunked", as far as a strict parser goes. It is never lowered again: what a head with
    several such lines comes to is the subject of HttpFraming. */
module HttpCoding {
  import opened Bytes
  import opened HttpTypes
  import opened HttpAct
  import opened HttpMachine
  import opened HttpInvariant
  import opened HttpRuns
  import opened HttpNames
  import opened HttpLines
  import opened HttpLists
  import opened HttpTransfer

  // ---------- what the matcher has seen ----------

  /** No NUL stands among the blanks that lead the last element of the list. */
  predicate Clean(value: seq<byte>) {
    NUL !in Leading(LastElement(value))
  }

  predicate CodingSeen(p: seq<byte>, m: Matcher) {
    var e := Core(LastElement(p));
    && (m.h.TeTokenStart? ==> e == [] && m.index == 0)
    && (m.h.TeMatchingChunked? ==> |e| == m.index + 1 < |CHUNKED| && Begins(e, CHUNKED))
    && (m.h.TeChunked? ==> BeginsPadded(e, CHUNKED))
  }

  /** One more octet of a value. */
  lemma CodingStep(p: seq<byte>, m: Matcher, c: byte)
    requires IsCoding(m.h) && CodingSeen(p, m)
    ensures CodingSeen(p + [c], CodingOctet(m, c, Lower(c)))
  {
    hide Lower, Begins, Core, LastElement, Token;
    LastSnoc(p, c);
    CoreSnoc(LastElement(p), c);
    NotLetter();
    EmptyBegins();
    var e := Core(LastElement(p));
    if m.h.TeTokenStart? {
      if Lower(c) == 'c' as int {
        BeginsMore(CHUNKED, e, c);
        assert e + [c] == [c];
      } else if CodingOctet(m, c, Lower(c)).h.TeTokenStart? {
        OnlySkipped(c);
      }
    } else if m.h.TeMatchingChunked? {
      MatchChunked(m, c);
      if Lower(c) == LiteralAt(CHUNKED, m.index + 1) {
        BeginsMore(CHUNKED, e, c);
        assert (e + [c])[..|e| + 1] == e + [c];
      }
    } else if m.h.TeChunked? && c == SP {
      assert (e + [c])[..|CHUNKED|] == e[..|CHUNKED|];
    }
  }

  /** The states in which the matcher may still end with "chunked" for the current element. */
  predicate Hopeful(h: HeaderState) {
    h.TeTokenStart? || h.TeMatchingChunked? || h.TeChunked?
  }

  /** Without a NUL the leading blanks stay clean. */
  lemma CleanStep(p: seq<byte>, c: byte)
    requires Clean(p) && c != NUL
    ensures Clean(p + [c])
  {
    hide Core;
    LastSnoc(p, c);
    CoreSnoc(LastElement(p), c);
  }

  lemma CleanKept(p: seq<byte>, m: Matcher, c: byte)
    requires IsCoding(m.h) && c != NUL && (Hopeful(m.h) ==> Clean(p))
    ensures Hopeful(CodingOctet(m, c, Lower(c)).h) ==> Clean(p + [c])
  {
    hide Lower, Token, Leading, LastElement, MatchLiteral, Clean;
    if Hopeful(m.h) {
      CleanStep(p, c);
    } else if c == ',' as int {
      CleanComma(p);
    }
  }

  lemma CleanComma(p: seq<byte>)
    ensures Clean(p + [',' as int])
  {
    LastSnoc(p, ',' as int);
  }

  lemma EmptyBegins()
    ensures Begins([], CHUNKED) && Core([]) == []
  {
  }

  /** A blank in front of a coding is a space: a tab lower-cases to ')' and ends the matching, but a
      NUL lower-cases to a space. */
  lemma OnlySkipped(c: byte)
    requires Lower(c) == SP || Lower(c) == HT
    ensures IsSkipped(c)
  {
  }

  lemma MatchChunked(m: Matcher, c: byte)
    requires m.h.TeMatchingChunked? && m.index + 1 < |CHUNKED|
    ensures var r := CodingOctet(m, c, Lower(c));
      if Lower(c) == LiteralAt(CHUNKED, m.index + 1) then
        r.index == m.index + 1 && (if r.index == |CHUNKED| - 1 then r.h.TeChunked? else r.h.TeMatchingChunked?)
      else r.h.TeToken?
  {
    hide Lower;
  }

  /** A value whose matching ended in "chunked" ends with that coding exactly if it is clean. */
  lemma SeenChunked(p: seq<byte>, m: Matcher)
    requires CodingSeen(p, m) && m.h.TeChunked?
    ensures EndsWithChunked(p) <==> Clean(p)
  {
    hide TrimLeft, TrimRight, LastElement, Core, Leading;
    var l := LastElement(p);
    TrimIsCore(l);
    if Clean(p) {
      TrimSpaces(CHUNKED, Core(l));
    } else {
      TrimKeepsFirst(TrimLeft(l));
      assert Lower(NUL) == SP;
    }
  }

  /** The first octet of a value. */
  lemma CodingFirst(c: byte, h: HeaderState)
    requires IsNameState(h) && !IsBlank(c)
    ensures var h' := FirstValueState(h, Lower(c));
      IsCoding(h') ==> CodingSeen([c], Matcher(h', 0)) && (Hopeful(h') ==> Clean([c]))
  {
    hide Lower, LastElement, Core, Leading, Begins;
    NotLetter();
    if Lower(c) == 'c' as int {
      EmptyBegins();
      BeginsMore(CHUNKED, [], c);
      assert [] + [c] == [c];
      OneOctet(c);
    }
  }

  /** The blank that begins a folded line. */
  lemma CodingFolded(p: seq<byte>, m: Matcher, c: byte)
    requires IsCoding(m.h) && CodingSeen(p, m) && IsBlank(c)
    ensures var h' := FirstValueState(m.h, Lower(c)); IsCoding(h') ==> CodingSeen(p + [c], Matcher(h', 0))
  {
    hide Lower, Begins, Core, LastElement;
    LastSnoc(p, c);
    CoreSnoc(LastElement(p), c);
  }

  // ---------- an invariant of every run ----------

  predicate EndsWithPart(v: seq<Event>, k: Part) {
    |v| > 0 && v[|v| - 1].Data? && v[|v| - 1].part == k
  }

  function LastBytes(v: seq<Event>): seq<byte>
    requires |v| > 0 && v[|v| - 1].Data?
  {
    v[|v| - 1].bytes
  }

  /** The states after the first octet of a value and before the header is finished. */
  predicate InValue(s: State) {
    s.HeaderValue? || s.HeaderAlmostDone? || s.HeaderValueLws? || s.HeaderValueStart?
  }

  /** The matcher describes the value delivered so far. Only a lenient parser lets a NUL through where it matters. */
  predicate Seen(lenient: bool, p: seq<byte>, m: Matcher) {
    p != [] && CodingSeen(p, m) && (!lenient && Hopeful(m.h) ==> Clean(p))
  }

  /** The user's last callback is about the header being read, and the matcher knows its value. */
  predicate Follows(st: Parser, v: seq<Event>) {
    && (st.state.HeaderField? || IsBeforeValue(st.state) ==> EndsWithPart(v, Field))
    && (InValue(st.state) && IsCoding(st.headerState) ==>
          EndsWithPart(v, Value) && Seen(st.lenient, LastBytes(v), Matcher(st.headerState, st.index)))
    && (InValue(st.state) ==> !st.headerState.TransferEncoding?)
  }

  /** Between two octets. */
  predicate Settled(st: Parser, v: seq<Event>) {
    Follows(st, v) && !st.state.HeaderValueStart?
  }

  /** The view once the octet is covered by the mark that is open in state `s`. */
  function Covered(v: seq<Event>, s: State, ch: byte): seq<Event> {
    match OpenPart(s)
    case Some(k) => Append(v, Data(k, [ch]))
    case None => v
  }

  /** What a case leaves for the next one, or for the next octet. */
  predicate FollowsAfter(e: Effect, v: seq<Event>, ch: byte) {
    var w := ViewOut(v, e.out, ch);
    e.st.errno == OK ==>
      if e.next == Again then Follows(e.st, w) && (e.st.state.HeaderValueStart? ==> IsBlank(ch))
      else Settled(e.st, Covered(w, e.st.state, ch))
  }

  lemma AppendLast(v: seq<Event>, k: Part, b: seq<byte>)
    ensures var w := Append(v, Data(k, b));
      EndsWithPart(w, k) && LastBytes(w) == if EndsWithPart(v, k) then LastBytes(v) + b else b
  {
  }

  predicate Watched(s: State) {
    s.HeaderField? || IsBeforeValue(s) || InValue(s)
  }

  lemma Unwatched(e: Effect, v: seq<Event>, ch: byte)
    requires !Watched(e.st.state)
    ensures FollowsAfter(e, v, ch)
  {
    hide Append, ViewOut;
  }

  /** The case of the switch that each header state reaches. */
  lemma HeaderCases(st: Parser, ch: byte)
    requires st.errno == OK
    ensures st.state.HeaderFieldStart? ==> Act(st, ch) == ActHeaderFieldStart(st, ch)
    ensures st.state.HeaderField? ==> Act(st, ch) == ActHeaderField(st, ch)
    ensures st.state.HeaderValueDiscardWs? ==> Act(st, ch) == ActDiscardWs(st, ch)
    ensures st.state.HeaderValueDiscardLws? ==> Act(st, ch) == ActHeaderValueDiscardLws(st, ch)
    ensures st.state.HeaderValueStart? ==> Act(st, ch) == ActHeaderValueStart(st, ch)
    ensures st.state.HeaderValue? ==> Act(st, ch) == ActHeaderValue(st, ch)
    ensures st.state.HeaderValueLws? ==> Act(st, ch) == ActHeaderValueLws(st, ch)
    ensures st.state.HeaderValueDiscardWsAlmostDone? ==> Act(st, ch) == Expect(st, ch, LF, STRICT, HeaderValueDiscardLws)
    ensures st.state.HeaderAlmostDone? ==> Act(st, ch) == Expect(st, ch, LF, LF_EXPECTED, HeaderValueLws)
  {
    hide Lawful, ActHeaderFieldStart, ActHeaderField, ActDiscardWs, ActHeaderValueDiscardLws, ActHeaderValueStart,
         ActHeaderValue, ActHeaderValueLws, Expect;
  }

  // ---------- the shapes of the cases ----------

  lemma IntoName(e: Effect, v: seq<Event>, ch: byte)
    requires e.next == Consume && e.st.state.HeaderField?
    requires e.out == Open(Field) || (e.out == Nothing && EndsWithPart(v, Field))
    ensures FollowsAfter(e, v, ch)
  {
    hide Append, Seen;
    AppendLast(v, Field, []);
    AppendLast(Append(v, Data(Field, [])), Field, [ch]);
    AppendLast(v, Field, [ch]);
  }

  lemma BeforeValue(e: Effect, v: seq<Event>, ch: byte)
    requires e.next == Consume && IsBeforeValue(e.st.state) && EndsWithPart(v, Field)
    requires e.out == Nothing || e.out == Close
    ensures FollowsAfter(e, v, ch)
  {
    hide Append, Seen;
  }

  /** The value octets delivered so far. */
  function SoFar(v: seq<Event>): seq<byte> {
    if EndsWithPart(v, Value) then LastBytes(v) else []
  }

  lemma IntoValue(e: Effect, v: seq<Event>, ch: byte)
    requires e.next == Consume && e.st.state.HeaderValue? && !e.st.headerState.TransferEncoding?
    requires e.out == Open(Value) || e.out == Nothing
    requires IsCoding(e.st.headerState) ==> Seen(e.st.lenient, SoFar(v) + [ch], Matcher(e.st.headerState, e.st.index))
    ensures FollowsAfter(e, v, ch)
  {
    hide Append, Seen, IsCoding, EndsWithPart, LastBytes, SoFar;
    CoveredValue(v, e.out, ch);
  }

  lemma CoveredValue(v: seq<Event>, out: Output, ch: byte)
    requires out == Open(Value) || out == Nothing
    ensures var w := Append(ViewOut(v, out, ch), Data(Value, [ch]));
      EndsWithPart(w, Value) && LastBytes(w) == SoFar(v) + [ch]
  {
    hide Append;
    AppendLast(v, Value, []);
    AppendLast(Append(v, Data(Value, [])), Value, [ch]);
    AppendLast(v, Value, [ch]);
    assert SoFar(v) + [] == SoFar(v);
    assert [] + [ch] == [ch];
  }

  lemma WithinValue(st: Parser, e: Effect, v: seq<Event>, ch: byte)
    requires Follows(st, v) && InValue(st.state) && InValue(e.st.state) && !e.st.state.HeaderValue?
    requires e.out == Nothing || e.out == Close
    requires IsCoding(e.st.headerState) ==> e.st.headerState == st.headerState && e.st.index == st.index
    requires e.st.lenient == st.lenient && (e.st.headerState.TransferEncoding? ==> st.headerState.TransferEncoding?)
    requires e.st.state.HeaderValueStart? ==> e.next == Again && IsBlank(ch)
    ensures FollowsAfter(e, v, ch)
  {
    hide Append, Seen, IsCoding;
  }

  lemma Failed(e: Effect, v: seq<Event>, ch: byte)
    requires e.st.errno != OK
    ensures FollowsAfter(e, v, ch)
  {
    hide Append, Seen;
  }

  // ---------- the cases ----------

  lemma FollowsFieldStart(st: Parser, ch: byte, v: seq<Event>)
    requires st.errno == OK && Follows(st, v) && st.state.HeaderFieldStart?
    ensures FollowsAfter(ActHeaderFieldStart(st, ch), v, ch)
  {
    hide Lawful, Token, FirstHeaderState, Follows, FollowsAfter;
    var e := ActHeaderFieldStart(st, ch);
    if e.st.errno != OK {
      Failed(e, v, ch);
    } else if e.st.state.HeaderField? {
      IntoName(e, v, ch);
    } else {
      Unwatched(e, v, ch);
    }
  }

  lemma FollowsField(st: Parser, ch: byte, v: seq<Event>)
    requires st.errno == OK && Follows(st, v) && st.state.HeaderField?
    ensures FollowsAfter(ActHeaderField(st, ch), v, ch)
  {
    hide Lawful, Token, NameStep, WithName, FollowsAfter, Seen;
    var e := ActHeaderField(st, ch);
    if e.st.errno != OK {
      Failed(e, v, ch);
    } else if e.st.state.HeaderField? {
      IntoName(e, v, ch);
    } else {
      BeforeValue(e, v, ch);
    }
  }

  lemma FollowsDiscardWs(st: Parser, ch: byte, v: seq<Event>)
    requires st.errno == OK && Follows(st, v) && st.state.HeaderValueDiscardWs? && IsNameState(st.headerState)
    ensures FollowsAfter(ActDiscardWs(st, ch), v, ch)
  {
    hide Lawful, FollowsAfter, Seen, StartValue, IsCoding, IsNameState;
    var e := ActDiscardWs(st, ch);
    if e.st.errno != OK {
      Failed(e, v, ch);
    } else if e.st.state.HeaderValue? {
      StartedValue(st, ch);
      FirstSeen(st.lenient, ch, st.headerState);
      IntoValue(e, v, ch);
    } else {
      BeforeValue(e, v, ch);
    }
  }

  lemma StartedValue(st: Parser, ch: byte)
    ensures var r := StartValue(st, ch);
      r.headerState == FirstValueState(st.headerState, Lower(ch)) && r.index == 0 && r.lenient == st.lenient
      && !r.headerState.TransferEncoding?
  {
    hide Lower;
  }

  lemma FirstSeen(lenient: bool, ch: byte, h: HeaderState)
    requires IsNameState(h) && !IsBlank(ch)
    ensures var h' := FirstValueState(h, Lower(ch)); IsCoding(h') ==> Seen(lenient, [] + [ch], Matcher(h', 0))
  {
    hide FirstValueState, Lower, CodingSeen, IsNameState, IsCoding, Clean;
    CodingFirst(ch, h);
    assert [] + [ch] == [ch];
  }

  lemma FollowsStart(st: Parser, ch: byte, v: seq<Event>)
    requires st.errno == OK && Follows(st, v) && st.state.HeaderValueStart? && IsBlank(ch)
    ensures FollowsAfter(ActHeaderValueStart(st, ch), v, ch)
  {
    hide Lawful, FollowsAfter, Seen, StartValue, IsCoding;
    var e := ActHeaderValueStart(st, ch);
    if e.st.errno != OK {
      Failed(e, v, ch);
    } else {
      StartedValue(st, ch);
      FoldedSeen(st, ch, v);
      IntoValue(e, v, ch);
    }
  }

  lemma FoldedSeen(st: Parser, ch: byte, v: seq<Event>)
    requires Follows(st, v) && st.state.HeaderValueStart? && IsBlank(ch)
    ensures var h' := FirstValueState(st.headerState, Lower(ch));
      IsCoding(h') ==> Seen(st.lenient, SoFar(v) + [ch], Matcher(h', 0))
  {
    hide Lower, CodingSeen, Clean;
    var h' := FirstValueState(st.headerState, Lower(ch));
    if IsCoding(h') {
      OnlyCodingFolds(st.headerState, ch);
      CodingFolded(SoFar(v), Matcher(st.headerState, st.index), ch);
      if Clean(SoFar(v)) {
        CleanStep(SoFar(v), ch);
      }
    }
  }

  /** A folded line goes on matching a coding only if the value was one. */
  lemma OnlyCodingFolds(h: HeaderState, ch: byte)
    requires !h.TransferEncoding? && IsCoding(FirstValueState(h, Lower(ch)))
    ensures IsCoding(h)
  {
  }

  lemma FollowsValue(st: Parser, ch: byte, v: seq<Event>)
    requires st.errno == OK && Follows(st, v) && st.state.HeaderValue?
    ensures FollowsAfter(ActHeaderValue(st, ch), v, ch)
  {
    hide Lawful, FollowsAfter, Seen, ValueStep, IsCoding;
    var e := ActHeaderValue(st, ch);
    if e.st.errno != OK {
      Failed(e, v, ch);
    } else if ch == CR || ch == LF {
      WithinValue(st, e, v, ch);
    } else {
      if IsCoding(st.headerState) {
        SoFarCoding(st, v);
      }
      ValueSeen(ValueOf(st), st.lenient, SoFar(v), ch);
      IntoValue(e, v, ch);
    }
  }

  lemma SoFarCoding(st: Parser, v: seq<Event>)
    requires Follows(st, v) && st.state.HeaderValue? && IsCoding(st.headerState)
    ensures Seen(st.lenient, SoFar(v), Matcher(st.headerState, st.index))
  {
    hide Seen, IsCoding;
  }

  /** One step of the value loop. */
  lemma ValueSeen(s: ValueScan, lenient: bool, p: seq<byte>, ch: byte)
    requires s.errno == OK && !s.m.h.TransferEncoding? && (IsCoding(s.m.h) ==> Seen(lenient, p, s.m))
    ensures var r := ValueStep(s, lenient, ch);
      && !r.m.h.TransferEncoding?
      && (r.errno == OK && IsCoding(r.m.h) ==> Seen(lenient, p + [ch], r.m))
  {
    hide Lower, CodingSeen, Token, ConnectionFlag, LengthOctet, OptionOctet, CodingOctet, Clean;
    OtherOctets(s, ch);
    if IsCoding(s.m.h) {
      CodingStep(p, s.m, ch);
      if ch != NUL && !lenient {
        CleanKept(p, s.m, ch);
      }
    }
  }

  lemma OtherOctets(s: ValueScan, ch: byte)
    ensures IsLength(LengthOctet(s, ch).m.h)
    ensures IsOption(s.m.h) ==>
      !IsCoding(OptionOctet(s.m, ch, Lower(ch)).h) && !OptionOctet(s.m, ch, Lower(ch)).h.TransferEncoding?
    ensures IsCoding(s.m.h) ==> !CodingOctet(s.m, ch, Lower(ch)).h.TransferEncoding?
  {
    hide Lower, Token;
  }

  lemma FollowsLws(st: Parser, ch: byte, v: seq<Event>)
    requires st.errno == OK && Follows(st, v) && st.state.HeaderValueLws?
    ensures FollowsAfter(ActHeaderValueLws(st, ch), v, ch)
  {
    hide Lawful, FollowsAfter, Seen, ConnectionFlag;
    var e := ActHeaderValueLws(st, ch);
    if ch == SP || ch == HT {
      WithinValue(st, e, v, ch);
    } else {
      Unwatched(e, v, ch);
    }
  }

  lemma FollowsDiscardLws(st: Parser, ch: byte, v: seq<Event>)
    requires st.errno == OK && Follows(st, v) && st.state.HeaderValueDiscardLws?
    ensures FollowsAfter(ActHeaderValueDiscardLws(st, ch), v, ch)
  {
    hide Lawful, FollowsAfter, Seen, FinishHeader;
    var e := ActHeaderValueDiscardLws(st, ch);
    if e.st.errno != OK {
      Failed(e, v, ch);
    } else if ch == SP || ch == HT {
      BeforeValue(e, v, ch);
    } else {
      Unwatched(e, v, ch);
    }
  }

  lemma FollowsAlmostDone(st: Parser, ch: byte, v: seq<Event>)
    requires st.errno == OK && Follows(st, v)
    ensures st.state.HeaderAlmostDone? ==> FollowsAfter(Expect(st, ch, LF, LF_EXPECTED, HeaderValueLws), v, ch)
    ensures st.state.HeaderValueDiscardWsAlmostDone? ==> FollowsAfter(Expect(st, ch, LF, STRICT, HeaderValueDiscardLws), v, ch)
  {
    hide Lawful, FollowsAfter, Seen;
    if st.state.HeaderAlmostDone? {
      var e := Expect(st, ch, LF, LF_EXPECTED, HeaderValueLws);
      if ch == LF { WithinValue(st, e, v, ch); } else { Failed(e, v, ch); }
    } else if st.state.HeaderValueDiscardWsAlmostDone? {
      var e := Expect(st, ch, LF, STRICT, HeaderValueDiscardLws);
      if ch == LF { BeforeValue(e, v, ch); } else { Failed(e, v, ch); }
    }
  }

  /** The cases outside the headers never lead into a name or a value. */
  lemma OutsideHeaders(st: Parser, ch: byte)
    requires st.errno == OK && !Watched(st.state) && !st.state.HeaderFieldStart?
    ensures Act(st, ch).st.errno == OK ==> !Watched(Act(st, ch).st.state)
  {
    hide Lawful;
    if InStartLine(st.state) {
      assert Lawful(st, Act(st, ch));
      StaysOut(st, Act(st, ch));
    } else {
      FramingStaysOut(st, ch);
    }
  }

  lemma StaysOut(st: Parser, e: Effect)
    requires InStartLine(st.state) && Lawful(st, e)
    ensures !Watched(e.st.state)
  {
  }

  lemma FramingStaysOut(st: Parser, ch: byte)
    requires st.errno == OK && InFraming(st.state)
    ensures Act(st, ch).st.errno == OK ==> !Watched(Act(st, ch).st.state)
  {
    hide Lawful, ActHeadersAlmostDone, ActHeadersDone, ActBody, ActChunkHeader, Watched;
    if st.state.HeadersAlmostDone? || st.state.HeadersDone? {
      HeadersEndStaysOut(st, ch);
    } else if IsBody(st.state) {
      BodyStaysOut(st, ch);
    } else {
      ChunkHeaderStaysOut(st, ch);
    }
  }

  lemma NextStaysOut(st: Parser)
    ensures !Watched(NewMessage(st)) && !Watched(HeadersDone) && !Watched(MessageDone) && !Watched(ChunkSizeStart)
    ensures !Watched(BodyIdentity) && !Watched(BodyIdentityEof)
  {
    hide ShouldKeepAlive;
  }

  lemma FramingUnwatched(st: Parser)
    requires st.errno == OK && st.state == HeadersDone
    ensures var r := ActFraming(st).st; r.errno == OK ==> !Watched(r.state)
  {
    hide Lawful, NewMessage, MessageNeedsEof, Watched;
    NextStaysOut(st);
  }

  lemma HeadersEndStaysOut(st: Parser, ch: byte)
    requires st.errno == OK
    ensures st.state == HeadersAlmostDone ==> var r := ActHeadersAlmostDone(st, ch).st; r.errno == OK ==> !Watched(r.state)
    ensures st.state == HeadersDone ==> var r := ActHeadersDone(st, ch).st; r.errno == OK ==> !Watched(r.state)
  {
    hide Lawful, NewMessage, LengthConflict, HandsOver, HeadersCompleted, ActFraming, Watched;
    NextStaysOut(st.(nread := 0));
    if st.state == HeadersDone {
      FramingUnwatched(st.(nread := 0));
    }
  }

  lemma BodyStaysOut(st: Parser, ch: byte)
    requires st.errno == OK && IsBody(st.state)
    ensures var r := ActBody(st, ch).st; r.errno == OK ==> !Watched(r.state)
  {
    hide Lawful, NewMessage, Watched;
    NextStaysOut(st);
    NotWatched();
  }

  lemma ChunkHeaderStaysOut(st: Parser, ch: byte)
    requires st.errno == OK && IsChunkHeader(st.state)
    ensures var r := ActChunkHeader(st, ch).st; r.errno == OK ==> !Watched(r.state)
  {
    hide Lawful, Unhex, ActChunkSize, ActChunkSizeAlmostDone, Watched;
    if st.state.ChunkSize? {
      ChunkSizeStaysOut(st, ch);
    } else if st.state.ChunkSizeAlmostDone? {
      ChunkSizeEndStaysOut(st, ch);
    } else {
      NotWatched();
    }
  }

  lemma NotWatched()
    ensures !Watched(ChunkSize) && !Watched(ChunkParameters) && !Watched(ChunkSizeAlmostDone) && !Watched(ChunkData)
    ensures !Watched(HeaderFieldStart) && !Watched(ChunkDataAlmostDone) && !Watched(ChunkDataDone)
  {
  }

  lemma ChunkSizeStaysOut(st: Parser, ch: byte)
    requires st.errno == OK && st.state.ChunkSize?
    ensures var r := ActChunkSize(st, ch).st; r.errno == OK ==> !Watched(r.state)
  {
    hide Lawful, Unhex, Watched;
    NotWatched();
  }

  lemma ChunkSizeEndStaysOut(st: Parser, ch: byte)
    requires st.errno == OK && st.state.ChunkSizeAlmostDone?
    ensures var r := ActChunkSizeAlmostDone(st, ch).st; r.errno == OK ==> !Watched(r.state)
  {
    hide Lawful, Watched;
    NotWatched();
  }

  /** Every case of the switch keeps the view in step with the matcher. */
  lemma FollowsAct(st: Parser, ch: byte, v: seq<Event>)
    requires st.errno == OK && Sound(st) && Follows(st, v) && (st.state.HeaderValueStart? ==> IsBlank(ch))
    ensures FollowsAfter(Act(st, ch), v, ch)
  {
    hide Lawful, Act, FollowsAfter, Follows, FramingOk, LengthOk, MethodName, IsNameState, IndexLimit, ActHeaderFieldStart,
         ActHeaderField, ActDiscardWs, ActHeaderValueDiscardLws, ActHeaderValueStart, ActHeaderValue, ActHeaderValueLws,
         Expect;
    HeaderCases(st, ch);
    if st.state.HeaderFieldStart? {
      FollowsFieldStart(st, ch, v);
    } else if st.state.HeaderField? {
      FollowsField(st, ch, v);
    } else if st.state.HeaderValueDiscardWs? {
      FollowsDiscardWs(st, ch, v);
    } else if st.state.HeaderValueDiscardLws? {
      FollowsDiscardLws(st, ch, v);
    } else if st.state.HeaderValueStart? {
      FollowsStart(st, ch, v);
    } else if st.state.HeaderValue? {
      FollowsValue(st, ch, v);
    } else if st.state.HeaderValueLws? {
      FollowsLws(st, ch, v);
    } else if st.state.HeaderAlmostDone? || st.state.HeaderValueDiscardWsAlmostDone? {
      FollowsAlmostDone(st, ch, v);
    } else {
      OutsideHeaders(st, ch);
      if Act(st, ch).st.errno == OK { Unwatched(Act(st, ch), v, ch); } else { Failed(Act(st, ch), v, ch); }
    }
  }

  // ---------- whole runs ----------

  /** The invariant of a machine between two octets. */
  predicate InStep(m: Machine) {
    MarkOk(m) && Valid(m.st) && Settled(m.st, View(m))
  }

  lemma {:induction false} DispatchInStep(m: Machine, ch: byte)
    requires m.st.errno == OK && MarkOk(m) && Sound(m.st) && Follows(m.st, View(m))
    requires m.st.state.HeaderValueStart? ==> IsBlank(ch)
    ensures var r := Dispatch(m, ch);
      r.st.errno == OK ==> MarkOk(r) && Settled(r.st, Covered(View(r), r.st.state, ch))
    decreases Rank(m.st.state)
  {
    hide Act, Append, Merge, Follows, Sound, Settled, ViewOut, View, MarkOk, MarksFit, StartLineLaw, InStartLine, Covered,
         Perform, MarkReady;
    var e := Act(m.st, ch);
    var m' := Perform(m, e.out, ch).(st := e.st);
    FollowsAct(m.st, ch, View(m));
    MarkFollows(m, e, ch);
    PerformView(m, e.out, ch);
    ViewSame(Perform(m, e.out, ch), e.st, false);
    if e.next == Again && e.st.errno == OK {
      ActKeeps(m.st, ch);
      DispatchInStep(m', ch);
    } else if e.next != Again {
      ViewSame(m', m'.st, e.next == Exit);
    }
  }

  lemma ViewSame(m: Machine, st: Parser, exited: bool)
    ensures View(m.(st := st)) == View(m) && View(m.(st := st, exited := exited)) == View(m)
    ensures MarkOk(m.(st := st)) == MarkOk(m.(st := st, exited := exited))
  {
    hide Append, Merge;
  }

  lemma SettledCount(st: Parser, n: nat, v: seq<Event>)
    ensures Settled(st.(nread := n), v) == Settled(st, v)
  {
    hide Seen, IsCoding;
  }

  lemma SettledAdvance(m: Machine, ch: byte)
    requires m.st.errno == OK && MarkOk(m) && Settled(m.st, Covered(View(m), m.st.state, ch))
    ensures MarkOk(Advance(m, ch)) && Settled(m.st, View(Advance(m, ch)))
  {
    hide Append, Merge, Seen, IsCoding;
    AdvanceView(m, ch);
  }

  lemma ByteStepInStep(m: Machine, ch: byte)
    requires Alive(m) && InStep(m)
    ensures ByteStep(m, ch).st.errno == OK ==> InStep(ByteStep(m, ch))
  {
    hide Dispatch, Append, Merge, Follows, Settled, Covered, View, MarkOk, Sound, Advance, ParsingHeader;
    ByteStepKeeps(m, ch);
    var counted := m.(st := Count(m.st));
    SettledCount(m.st, Count(m.st).nread, View(m));
    CountedSame(m);
    if counted.st.errno == OK {
      SoundNread(m.st, counted.st);
      SettledFollows(counted.st, View(counted));
      DispatchInStep(counted, ch);
      AdvanceState(Dispatch(counted, ch), ch);
      if Dispatch(counted, ch).st.errno == OK {
        SettledAdvance(Dispatch(counted, ch), ch);
      }
    }
  }

  lemma AdvanceState(m: Machine, ch: byte)
    ensures Advance(m, ch).st == m.st
  {
  }

  lemma CountedSame(m: Machine)
    ensures var c := m.(st := Count(m.st));
      View(c) == View(m) && MarkOk(c) == MarkOk(m) && (c.st.errno == OK ==> c.st == m.st.(nread := c.st.nread))
  {
    hide Append, Merge;
  }

  lemma SettledFollows(st: Parser, v: seq<Event>)
    requires Settled(st, v)
    ensures Follows(st, v) && !st.state.HeaderValueStart?
  {
    hide Follows;
  }

  /** It holds after every run of octets. */
  lemma {:induction false} RunInStep(m: Machine, s: seq<byte>)
    requires InStep(m)
    ensures Run(m, s).st.errno == OK ==> InStep(Run(m, s))
    decreases |s|
  {
    hide InStep, ByteStep;
    if !Alive(m) {
      RunStopped(m, s);
    } else if s != [] {
      ByteStepInStep(m, s[0]);
      if ByteStep(m, s[0]).st.errno == OK {
        RunInStep(ByteStep(m, s[0]), s[1..]);
      } else {
        RunStopped(ByteStep(m, s[0]), s[1..]);
      }
    }
  }

  /** It survives the end of one call and the beginning of the next. */
  lemma CallInStep(m: Machine)
    requires Alive(m) && InStep(m)
    ensures InStep(Begin(Finish(m))) && Alive(Finish(m))
  {
    hide Append, Merge, Settled, View, Valid;
    CallBoundary(m);
  }

  /** It holds at the start of every call, and therefore inside every call. */
  lemma {:induction false} FeedAllInStep(m: Machine, pieces: seq<seq<byte>>)
    requires Alive(m) && InStep(Begin(m)) && NonemptyPieces(pieces)
    ensures Alive(FeedAll(m, pieces)) ==> InStep(Begin(FeedAll(m, pieces)))
    decreases |pieces|
  {
    hide InStep, Begin, Finish, Run;
    if pieces != [] {
      var r := Run(Begin(m), pieces[0]);
      RunInStep(Begin(m), pieces[0]);
      FinishAlive(r);
      if Alive(r) {
        CallInStep(r);
        FeedAllInStep(Finish(r), pieces[1..]);
      } else {
        FeedAllStopped(Finish(r), pieces[1..]);
      }
    }
  }

  lemma FinishAlive(m: Machine)
    ensures Alive(Finish(m)) == Alive(m)
  {
  }

  // ---------- when a message becomes chunked ----------

  lemma FinishChunked(st: Parser)
    ensures FinishHeader(st).flags.chunked <==> st.flags.chunked || st.headerState == TeChunked
  {
    hide ConnectionFlag;
    FlagKeeps(st.flags, st.headerState);
  }

  lemma StartChunked(st: Parser, ch: byte)
    ensures StartValue(st, ch).flags.chunked == st.flags.chunked
  {
    hide FirstValueState, Lower;
  }

  lemma ValueChunked(st: Parser, ch: byte)
    ensures WithValue(st, ValueStep(ValueOf(st), st.lenient, ch)).flags.chunked == st.flags.chunked
  {
    hide CodingOctet, OptionOctet, ConnectionFlag, IsHeaderChar, IsCoding, IsOption, IsLength;
    FlagKeeps(st.flags, st.headerState);
    LengthFlags(ValueOf(st), ch);
  }

  lemma LengthFlags(v: ValueScan, ch: byte)
    ensures LengthOctet(v, ch).flags == v.flags
  {
  }

  lemma NamesChunked(st: Parser, ch: byte)
    requires st.errno == OK
    ensures st.state.HeaderFieldStart? ==> ActHeaderFieldStart(st, ch).st.flags.chunked == st.flags.chunked
    ensures st.state.HeaderField? ==> ActHeaderField(st, ch).st.flags.chunked == st.flags.chunked
    ensures st.state.HeaderAlmostDone? ==> Expect(st, ch, LF, LF_EXPECTED, HeaderValueLws).st.flags.chunked == st.flags.chunked
    ensures st.state.HeaderValueDiscardWsAlmostDone? ==>
      Expect(st, ch, LF, STRICT, HeaderValueDiscardLws).st.flags.chunked == st.flags.chunked
  {
    hide Lawful, Token, NameStep, FirstHeaderState;
  }

  lemma ValuesChunked(st: Parser, ch: byte)
    requires st.errno == OK
    ensures st.state.HeaderValueDiscardWs? ==> ActDiscardWs(st, ch).st.flags.chunked == st.flags.chunked
    ensures st.state.HeaderValueStart? ==> ActHeaderValueStart(st, ch).st.flags.chunked == st.flags.chunked
    ensures st.state.HeaderValue? ==> ActHeaderValue(st, ch).st.flags.chunked == st.flags.chunked
  {
    hide Lawful, StartValue, ValueStep;
    StartChunked(st, ch);
    ValueChunked(st, ch);
  }

  lemma LinesChunked(st: Parser, ch: byte)
    requires st.errno == OK
    ensures st.state.HeaderValueLws? && !st.headerState.TeChunked? ==>
      ActHeaderValueLws(st, ch).st.flags.chunked == st.flags.chunked
    ensures st.state.HeaderValueDiscardLws? && !st.headerState.TeChunked? ==>
      ActHeaderValueDiscardLws(st, ch).st.flags.chunked == st.flags.chunked
  {
    hide Lawful, FinishHeader;
    FinishChunked(st);
    FoldChunked(st);
  }

  lemma FoldChunked(st: Parser)
    ensures FoldLine(st).flags == st.flags
  {
  }

  /** F_CHUNKED is raised in one place only: when a header whose value ended in "chunked" is finished. */
  lemma HeadersChunked(st: Parser, ch: byte)
    requires st.errno == OK && (IsHeader(st.state) || IsBeforeValue(st.state))
    requires IsBeforeValue(st.state) ==> IsNameState(st.headerState)
    ensures Act(st, ch).st.flags.chunked == st.flags.chunked || (st.state.HeaderValueLws? && st.headerState.TeChunked?)
  {
    hide Lawful, Act, ActHeaderFieldStart, ActHeaderField, ActDiscardWs, ActHeaderValueDiscardLws, ActHeaderValueStart,
         ActHeaderValue, ActHeaderValueLws, Expect;
    HeaderCases(st, ch);
    NamesChunked(st, ch);
    ValuesChunked(st, ch);
    LinesChunked(st, ch);
  }

  lemma StartLineChunked(st: Parser, e: Effect)
    requires InStartLine(st.state) && Lawful(st, e)
    ensures e.st.flags.chunked ==> st.flags.chunked
  {
  }

  lemma BodyChunked(st: Parser, ch: byte)
    requires st.errno == OK && IsBody(st.state)
    ensures ActBody(st, ch).st.flags.chunked == st.flags.chunked
  {
    hide Lawful, NewMessage;
  }

  lemma ChunkHeaderChunked(st: Parser, ch: byte)
    requires st.errno == OK && IsChunkHeader(st.state)
    ensures ActChunkHeader(st, ch).st.flags.chunked == st.flags.chunked
  {
    hide Lawful, Unhex;
  }

  lemma HeadersEndChunked(st: Parser, ch: byte)
    requires st.errno == OK
    ensures st.state == HeadersAlmostDone ==> ActHeadersAlmostDone(st, ch).st.flags.chunked == st.flags.chunked
    ensures st.state == HeadersDone ==> ActHeadersDone(st, ch).st.flags.chunked == st.flags.chunked
  {
    hide Lawful, NewMessage, LengthConflict, HandsOver, MessageNeedsEof;
  }

  lemma ActChunked(st: Parser, ch: byte)
    requires st.errno == OK && (IsBeforeValue(st.state) ==> IsNameState(st.headerState))
    ensures Act(st, ch).st.flags.chunked && !st.flags.chunked ==> st.state.HeaderValueLws? && st.headerState.TeChunked?
  {
    hide Lawful, ActHeaders, ActBeforeValue, ActBody, ActChunkHeader, ActHeadersAlmostDone, ActHeadersDone, ActStart,
         ActResponseProtocol, ActResponseVersion, ActResponseStatus, ActReqMethod, ActSpacesBeforeUrl, ActUrl,
         ActRequestProtocol, ActRequestVersion, IsNameState;
    if IsHeader(st.state) || IsBeforeValue(st.state) {
      HeadersChunked(st, ch);
    } else if IsBody(st.state) {
      BodyChunked(st, ch);
    } else if IsChunkHeader(st.state) {
      ChunkHeaderChunked(st, ch);
    } else if st.state == HeadersAlmostDone || st.state == HeadersDone {
      HeadersEndChunked(st, ch);
    } else {
      StartLineChunked(st, Act(st, ch));
    }
  }

  /** No reexecution leads back to the end of a header line. */
  lemma {:induction false} DispatchChunked(m: Machine, ch: byte)
    requires m.st.errno == OK && Sound(m.st)
    ensures Dispatch(m, ch).st.flags.chunked && !m.st.flags.chunked ==>
      m.st.state.HeaderValueLws? && m.st.headerState.TeChunked?
    decreases Rank(m.st.state)
  {
    hide Act, Sound, MarksFit, StartLineLaw, InStartLine;
    var e := Act(m.st, ch);
    SoundNames(m.st);
    ActChunked(m.st, ch);
    ActKeeps(m.st, ch);
    if e.next == Again {
      DispatchChunked(Perform(m, e.out, ch).(st := e.st), ch);
    }
  }

  lemma SoundNames(st: Parser)
    requires Sound(st)
    ensures IsBeforeValue(st.state) ==> IsNameState(st.headerState)
  {
    hide FramingOk, LengthOk, MethodName, IndexLimit, IsNameState;
  }

  lemma ByteStepChunked(m: Machine, ch: byte)
    requires Alive(m) && Valid(m.st)
    ensures ByteStep(m, ch).st.flags.chunked && !m.st.flags.chunked ==>
      m.st.state.HeaderValueLws? && m.st.headerState.TeChunked?
  {
    hide Dispatch, Sound, ParsingHeader;
    var counted := m.(st := Count(m.st));
    SoundNread(m.st, counted.st);
    if counted.st.errno == OK {
      DispatchChunked(counted, ch);
    }
  }

  /** The octet that makes a message chunked finds that the value just delivered ends, as a list, with the
      element "chunked" exactly if no NUL is hidden in front of that element, and always if the parser is strict. */
  lemma ChunkedMeansChunked(m: Machine, ch: byte)
    requires Alive(m) && InStep(m) && ByteStep(m, ch).st.flags.chunked && !m.st.flags.chunked
    ensures EndsWithPart(View(m), Value)
    ensures EndsWithChunked(LastBytes(View(m))) <==> Clean(LastBytes(View(m)))
    ensures !m.st.lenient ==> EndsWithChunked(LastBytes(View(m)))
  {
    hide ByteStep, Valid, MarkOk, EndsWithChunked, Clean;
    ByteStepChunked(m, ch);
    SeenChunked(LastBytes(View(m)), Matcher(m.st.headerState, m.st.index));
  }

  /** A parser before its first octet: http_parser_init, and the two settings left to the user. */
  function Fresh(kind: Kind, verdict: Verdict, lenient: bool, allowChunkedLength: bool): Machine {
    Machine(Init(kind, verdict).(lenient := lenient, allowChunkedLength := allowChunkedLength), [], Closed, 0, false)
  }

  lemma FreshInStep(kind: Kind, verdict: Verdict, lenient: bool, allow: bool)
    ensures InStep(Begin(Fresh(kind, verdict, lenient, allow))) && Alive(Fresh(kind, verdict, lenient, allow))
  {
    hide MethodName, IndexLimit;
  }

  /** The same in every run of every parser: after any calls, and any octets of the next call, F_CHUNKED is
      raised only behind a value that ends with "chunked", however the value was cut or folded, unless a
      lenient parser overlooked a NUL in front of its last element. */
  lemma FinalCodingSound(kind: Kind, verdict: Verdict, lenient: bool, allow: bool,
                         pieces: seq<seq<byte>>, s: seq<byte>, ch: byte)
    requires NonemptyPieces(pieces)
    ensures var c := FeedAll(Fresh(kind, verdict, lenient, allow), pieces);
      var m := Run(Begin(c), s);
      Alive(c) && Alive(m) && ByteStep(m, ch).st.flags.chunked && !m.st.flags.chunked ==>
        && EndsWithPart(View(m), Value)
        && (EndsWithChunked(LastBytes(View(m))) <==> Clean(LastBytes(View(m))))
        && (!lenient ==> EndsWithChunked(LastBytes(View(m))))
  {
    hide InStep, ByteStep, Begin, Run, View, EndsWithChunked, Clean;
    var start := Fresh(kind, verdict, lenient, allow);
    var c := FeedAll(start, pieces);
    FreshInStep(kind, verdict, lenient, allow);
    FeedAllInStep(start, pieces);
    if Alive(c) {
      var m := Run(Begin(c), s);
      RunInStep(Begin(c), s);
      LenientStays(start, pieces, s);
      if Alive(m) && ByteStep(m, ch).st.flags.chunked && !m.st.flags.chunked {
        ChunkedMeansChunked(m, ch);
      }
    }
  }

  lemma LenientStays(m: Machine, pieces: seq<seq<byte>>, s: seq<byte>)
    requires NonemptyPieces(pieces)
    ensures Run(Begin(FeedAll(m, pieces)), s).st.lenient == m.st.lenient
  {
    hide Run, FeedAll, OpenPart;
    FeedAllSettings(m, pieces);
    RunSettings(Begin(FeedAll(m, pieces)), s);
  }

  // ---------- a lenient parser and a NUL ----------

  const CHUNKED_TEXT: seq<byte> := Ascii(CHUNKED)

  const ENCODING_HEADER: seq<byte> := Ascii("Transfer-Encoding")

  /** "gzip," NUL "chunked" */
  const NUL_VALUE: seq<byte> := Ascii("gzip,") + ([NUL] + CHUNKED_TEXT)

  /** The exception is real: a lenient parser that reads this header line delivers the value with its NUL,
      and the next octet makes the message chunked although the value does not end with "chunked". */
  lemma LenientNul(m: Machine)
    requires Alive(m) && m.st.state == HeaderFieldStart && m.mark == Closed && m.st.lenient
    requires m.st.nread + 35 <= MAX_HEADER_SIZE
    ensures var r := Run(m, ENCODING_HEADER + COLON_SP + (NUL_VALUE + CRLF));
      && r.st.errno == OK && r.log == m.log + [Data(Field, ENCODING_HEADER), Data(Value, NUL_VALUE)]
      && ByteStep(r, CR).st.errno == OK && ByteStep(r, CR).st.flags.chunked
    ensures !EndsWithChunked(NUL_VALUE)
  {
    hide Run, ByteStep, NameRead, ValueRead, ValueAccepted, EndsWithChunked, AllTokens, IsOneValue;
    var a := NameRead(m.st, ENCODING_HEADER);
    EncodingRead(m.st);
    RunNamePart(m, ENCODING_HEADER);
    NulValueRead(a);
    RunValuePart(Run(m, ENCODING_HEADER + COLON_SP), NUL_VALUE);
    RunConcat(m, ENCODING_HEADER + COLON_SP, NUL_VALUE + CRLF);
    assert m.log + [Data(Field, ENCODING_HEADER)] + [Data(Value, NUL_VALUE)]
        == m.log + [Data(Field, ENCODING_HEADER), Data(Value, NUL_VALUE)];
    StepFinished(Run(m, ENCODING_HEADER + COLON_SP + (NUL_VALUE + CRLF)));
    NulNotChunked();
  }

  lemma EncodingText()
    ensures ENCODING_HEADER != [] && AllTokens(ENCODING_HEADER) && Spells(ENCODING_HEADER, ENCODING_NAME)
  {
    forall i | 0 <= i < |ENCODING_HEADER| ensures Token(ENCODING_HEADER[i]) == LiteralAt(ENCODING_NAME, i) != 0 {
      assert ENCODING_HEADER[i] == "Transfer-Encoding"[i] as int;
    }
  }

  lemma EncodingRead(st: Parser)
    ensures ENCODING_HEADER != [] && AllTokens(ENCODING_HEADER)
    ensures var a := NameRead(st, ENCODING_HEADER);
      && a.headerState == TransferEncoding && a.state == HeaderValueDiscardWs && a.errno == st.errno
      && a.nread == st.nread + 19 && a.lenient == st.lenient
  {
    hide Token, NameSteps, Spells, AllTokens;
    EncodingText();
    NameRecognised(ENCODING_HEADER, st.usesTransferEncoding);
  }

  /** The value is accepted, and leaves the matcher at "chunked". */
  lemma NulValueRead(a: Parser)
    requires a.headerState == TransferEncoding && a.lenient && a.errno == OK
    ensures IsOneValue(NUL_VALUE) && |NUL_VALUE| == 13 && ValueAccepted(a, NUL_VALUE)
    ensures var r := ValueRead(a, NUL_VALUE);
      r.headerState == TeChunked && r.state == HeaderValueLws && r.errno == OK && r.nread == a.nread + 15
  {
    hide ValueSteps, StartValue, Lower;
    NulText();
    NulScanned(a);
  }

  lemma NulText()
    ensures IsOneValue(NUL_VALUE) && |NUL_VALUE| == 13 && NUL_VALUE[0] == 'g' as int
    ensures NUL_VALUE[1..] == Ascii("zip,") + ([NUL] + CHUNKED_TEXT)
  {
    assert NUL_VALUE == ['g' as int, 'z' as int, 'i' as int, 'p' as int, ',' as int, NUL, 'c' as int, 'h' as int,
                         'u' as int, 'n' as int, 'k' as int, 'e' as int, 'd' as int];
  }

  lemma NulScanned(a: Parser)
    requires a.headerState == TransferEncoding && a.lenient && a.errno == OK
    ensures var r := ValueScanned(a, NUL_VALUE); r.errno == OK && r.m.h == TeChunked
  {
    hide ValueStep, ValueSteps, StartValue;
    NulText();
    var v := ValueOf(StartValue(a, 'g' as int));
    StartToken(a);
    LettersToComma(v);
    ValueStepsConcat(v, true, Ascii("zip,"), [NUL] + CHUNKED_TEXT);
    NulTail(v.flags, v.length);
  }

  lemma StartToken(a: Parser)
    requires a.headerState == TransferEncoding && a.errno == OK
    ensures var v := ValueOf(StartValue(a, 'g' as int)); v.m == Matcher(TeToken, 0) && v.errno == OK
    ensures StartValue(a, 'g' as int).lenient == a.lenient
  {
    assert Lower('g' as int) == 'g' as int;
  }

  lemma StepToken(v: ValueScan, c: byte)
    requires v.m == Matcher(TeToken, 0) && v.errno == OK
    ensures ValueStep(v, true, c) == v.(m := Matcher(if c == ',' as int then TeTokenStart else TeToken, 0))
  {
    hide ConnectionFlag, LengthOctet, OptionOctet, Lower;
    assert ValueSwitch(v, c) == v.(m := CodingOctet(v.m, c, Lower(c)));
  }

  lemma LettersToComma(v: ValueScan)
    requires v.m == Matcher(TeToken, 0) && v.errno == OK
    ensures ValueSteps(v, true, Ascii("zip,")) == v.(m := Matcher(TeTokenStart, 0))
  {
    hide ValueStep;
    var s := Ascii("zip,");
    StepToken(v, s[0]);
    StepToken(v, s[1]);
    StepToken(v, s[2]);
    StepToken(v, s[3]);
    assert s[1..][1..][1..][1..] == [];
    assert s[1..][1..][1..][0] == s[3] && s[1..][1..][0] == s[2] && s[1..][0] == s[1];
    assert ValueSteps(v, true, s[1..][1..][1..]) == v.(m := Matcher(TeTokenStart, 0));
    assert ValueSteps(v, true, s[1..][1..]) == v.(m := Matcher(TeTokenStart, 0));
  }

  lemma NulTail(f: Flags, n: nat)
    ensures var r := ValueSteps(ValueScan(Matcher(TeTokenStart, 0), f, n, OK), true, [NUL] + CHUNKED_TEXT);
      r.m.h == TeChunked && r.errno == OK
  {
    hide ValueStep;
    var v := ValueScan(Matcher(TeTokenStart, 0), f, n, OK);
    LenientFirst(v);
    LenientLetters(f, n, 0);
    assert [NUL] + CHUNKED_TEXT == [NUL] + ['c' as int] + CHUNKED_TEXT[1..];
    ValueStepsConcat(v, true, [NUL] + ['c' as int], CHUNKED_TEXT[1..]);
  }

  /** The octet behind the line ends the header. */
  lemma StepFinished(m: Machine)
    requires Alive(m) && m.st.state == HeaderValueLws && m.st.headerState == TeChunked && m.mark == Closed
    requires m.st.nread < MAX_HEADER_SIZE
    ensures ByteStep(m, CR).st.errno == OK && ByteStep(m, CR).st.flags.chunked
  {
    hide Act, Dispatch, Advance;
    CountHeader(m.st);
    StepCounting(m, CR);
    DispatchFinished(m.(st := Count(m.st)));
    AdvanceState(Dispatch(m.(st := Count(m.st)), CR), CR);
  }

  lemma DispatchFinished(m: Machine)
    requires m.st.errno == OK && m.st.state == HeaderValueLws && m.st.headerState == TeChunked
    ensures Dispatch(m, CR).st.errno == OK && Dispatch(m, CR).st.flags.chunked
  {
    hide Act, Dispatch;
    HeaderCases(m.st, CR);
    DispatchOnce(m, CR, Act(m.st, CR));
    var m1 := m.(st := FinishHeader(m.st));
    HeaderCases(m1.st, CR);
    DispatchOnce(m1, CR, Act(m1.st, CR));
  }

  lemma LenientFirst(v: ValueScan)
    requires v.m == Matcher(TeTokenStart, 0) && v.errno == OK
    ensures ValueSteps(v, true, [NUL] + ['c' as int]) == v.(m := Matcher(TeMatchingChunked, 0))
  {
    hide ValueStep;
    LenientOctets(v);
    assert [NUL][1..] == [];
    assert ValueSteps(v, true, [NUL]) == v;
    ValueStepsSnoc(v, true, [NUL], 'c' as int);
  }

  lemma LenientOctets(v: ValueScan)
    requires v.m == Matcher(TeTokenStart, 0) && v.errno == OK
    ensures ValueStep(v, true, NUL) == v && ValueStep(v, true, 'c' as int) == v.(m := Matcher(TeMatchingChunked, 0))
  {
    hide ConnectionFlag, LengthOctet, OptionOctet;
    assert Lower(NUL) == SP && Lower('c' as int) == 'c' as int;
    assert CodingOctet(v.m, NUL, SP) == v.m;
    assert ValueSwitch(v, NUL) == v.(m := CodingOctet(v.m, NUL, Lower(NUL)));
    assert ValueStep(v, true, NUL) == v;
    assert CodingOctet(v.m, 'c' as int, 'c' as int) == Matcher(TeMatchingChunked, 0);
    assert ValueSwitch(v, 'c' as int) == v.(m := CodingOctet(v.m, 'c' as int, Lower('c' as int)));
  }

  lemma {:induction false} LenientLetters(f: Flags, n: nat, i: nat)
    requires i <= 6
    ensures ValueSteps(ValueScan(Matcher(if i == 6 then TeChunked else TeMatchingChunked, i), f, n, OK), true,
                       CHUNKED_TEXT[i + 1..])
         == ValueScan(Matcher(TeChunked, 6), f, n, OK)
    decreases 6 - i
  {
    hide ValueStep;
    var s := CHUNKED_TEXT[i + 1..];
    if i < 6 {
      assert s[0] == CHUNKED_TEXT[i + 1] && s[1..] == CHUNKED_TEXT[i + 2..];
      LetterStep(f, n, i);
      LenientLetters(f, n, i + 1);
    }
  }

  lemma LetterStep(f: Flags, n: nat, i: nat)
    requires i < 6
    ensures ValueStep(ValueScan(Matcher(TeMatchingChunked, i), f, n, OK), true, CHUNKED_TEXT[i + 1])
         == ValueScan(Matcher(if i == 5 then TeChunked else TeMatchingChunked, i + 1), f, n, OK)
  {
    assert Lower(CHUNKED_TEXT[i + 1]) == CHUNKED[i + 1] as int;
  }

  lemma NulNotChunked()
    ensures !EndsWithChunked(NUL_VALUE)
  {
    var q := [NUL] + CHUNKED_TEXT;
    assert Ascii("gzip,") == Ascii("gzip") + [',' as int];
    assert q[|q| - 1] == 'd' as int;
    LastBehind(Ascii("gzip"), q);
    LastWhole(q);
  }
}
