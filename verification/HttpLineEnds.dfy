/** The line ends between the parts of messages: which may be missing, repeated or bare, and which are demanded. */
module HttpLineEnds {
  import opened Bytes
  import opened HttpTypes
  import opened HttpAct
  import opened HttpMachine
  import opened HttpRuns
  import opened HttpResponse
  import opened HttpBlock
  import opened HttpStatusForms
  import HttpChunked

  // ---------- between messages ----------

  predicate IsBreak(c: byte) {
    c == CR || c == LF
  }

  predicate AllBreaks(s: seq<byte>) {
    forall i :: 0 <= i < |s| ==> IsBreak(s[i])
  }

  /** The parser waits for a message, or for nothing more. */
  predicate Between(m: Machine) {
    Alive(m) && m.mark == Closed && m.st.nread <= MAX_HEADER_SIZE && IsStart(m.st.state) && m.st.state != ResOrRespH
  }

  lemma ActBreak(st: Parser, ch: byte)
    requires st.errno == OK && IsStart(st.state) && st.state != ResOrRespH && IsBreak(ch)
    ensures Act(st, ch) == Stay(st)
  {
    hide Lawful;
  }

  lemma StepBreak(m: Machine, ch: byte)
    requires Between(m) && IsBreak(ch)
    ensures ByteStep(m, ch) ==
      if m.st.nread < MAX_HEADER_SIZE then m.(st := m.st.(nread := m.st.nread + 1), consumed := m.consumed + 1)
      else m.(st := m.st.(nread := m.st.nread + 1, errno := HEADER_OVERFLOW))
  {
    hide Act, ByteStep, IsBreak;
    if m.st.nread < MAX_HEADER_SIZE {
      CountHeader(m.st);
      ActBreak(Count(m.st), ch);
      StepConsume(m, ch, Act(Count(m.st), ch));
    } else {
      StepOverflow(m, ch);
    }
  }

  /** Any number of line ends between two messages changes nothing, but that they count towards the limit of the next head. */
  lemma {:induction false} RunBreaks(m: Machine, s: seq<byte>)
    requires Between(m) && AllBreaks(s)
    ensures var r := Run(m, s);
      if m.st.nread + |s| <= MAX_HEADER_SIZE then r == m.(st := m.st.(nread := m.st.nread + |s|), consumed := m.consumed + |s|)
      else r.st.errno == HEADER_OVERFLOW && r.log == m.log
    decreases |s|
  {
    hide ByteStep, IsBreak;
    if s != [] {
      StepBreak(m, s[0]);
      if m.st.nread < MAX_HEADER_SIZE {
        RunBreaks(ByteStep(m, s[0]), s[1..]);
      } else {
        RunStopped(ByteStep(m, s[0]), s[1..]);
      }
    }
  }

  lemma ActClosed(st: Parser, ch: byte)
    requires st.errno == OK && st.state == Dead && !IsBreak(ch)
    ensures Act(st, ch) == Fail(st, CLOSED_CONNECTION)
  {
    hide Lawful;
  }

  lemma StepClosed(m: Machine, ch: byte)
    requires Between(m) && m.st.state == Dead && m.st.nread < MAX_HEADER_SIZE && !IsBreak(ch)
    ensures ByteStep(m, ch).st.errno == CLOSED_CONNECTION && ByteStep(m, ch).log == m.log
  {
    hide Act, ByteStep, IsBreak;
    CountHeader(m.st);
    ActClosed(Count(m.st), ch);
    StepConsume(m, ch, Act(Count(m.st), ch));
  }

  /** Behind the last message of a connection nothing but line ends is taken. */
  lemma {:induction false} ClosedExact(m: Machine, s: seq<byte>)
    requires Between(m) && m.st.state == Dead && m.st.nread + |s| <= MAX_HEADER_SIZE
    ensures var r := Run(m, s);
      r.log == m.log && r.st.errno == if AllBreaks(s) then OK else CLOSED_CONNECTION
    decreases |s|
  {
    hide ByteStep, IsBreak;
    if s != [] {
      if IsBreak(s[0]) {
        StepBreak(m, s[0]);
        ClosedExact(ByteStep(m, s[0]), s[1..]);
        assert AllBreaks(s) <==> AllBreaks(s[1..]) by {
          assert forall i :: 0 < i < |s| ==> s[i] == s[1..][i - 1];
          assert forall i :: 0 <= i < |s[1..]| ==> s[1..][i] == s[i + 1];
        }
      } else {
        StepClosed(m, s[0]);
        RunStopped(ByteStep(m, s[0]), s[1..]);
      }
    }
  }

  // ---------- the blank line ----------

  /** The machine behind the CR of a blank line, without having counted it. */
  function AtBlank(m: Machine): Machine {
    m.(st := m.st.(state := HeadersAlmostDone))
  }

  lemma ActBareBlank(st: Parser)
    requires st.errno == OK && st.state == HeaderFieldStart
    ensures Act(st, LF) == Effect(st.(state := HeadersAlmostDone), Nothing, Again)
  {
    hide Lawful;
  }

  lemma DispatchBareBlank(m: Machine)
    requires m.st.errno == OK && m.st.state == HeaderFieldStart
    ensures Dispatch(m, LF) == Dispatch(AtBlank(m), LF)
  {
    hide Act, Dispatch;
    ActBareBlank(m.st);
    DispatchOnce(m, LF, Act(m.st, LF));
  }

  lemma AtBlankFacts(m: Machine)
    ensures AtBlank(m).st.errno == m.st.errno && AtBlank(m).st.state == HeadersAlmostDone && AtBlank(m).exited == m.exited
    ensures AtBlank(m).st.nread == m.st.nread && AtBlank(m).mark == m.mark
  {
  }

  lemma BlankCounted(m: Machine, a: Parser, b: Parser, n: nat)
    requires a == m.st.(nread := n) && b == AtBlank(m).st.(nread := n)
    ensures AtBlank(m.(st := a)) == AtBlank(m).(st := b)
    ensures a.errno == b.errno == m.st.errno && a.state == m.st.state
  {
  }

  lemma StepBareBlank(m: Machine)
    requires Normal(m) && m.st.nread < MAX_HEADER_SIZE
    ensures ByteStep(m, LF) == ByteStep(AtBlank(m), LF)
  {
    hide Dispatch, ByteStep, Count, AtBlank, Advance;
    AtBlankFacts(m);
    CountHeader(m.st);
    CountHeader(AtBlank(m).st);
    var a, b := Count(m.st), Count(AtBlank(m).st);
    BlankCounted(m, a, b, m.st.nread + 1);
    StepCounting(m, LF);
    StepCounting(AtBlank(m), LF);
    DispatchBareBlank(m.(st := a));
  }

  /** A bare line feed is a blank line too: it frames the body as CR LF does. */
  lemma BareBlank(m: Machine)
    requires Normal(m) && Ordinary(m.st) && m.st.nread < MAX_HEADER_SIZE
    ensures BlankEffect(m, 1, Run(m, [LF]))
  {
    hide ByteStep, Run, BlankEffect;
    RunOne(m, LF);
    StepBareBlank(m);
    StepBlankLf(AtBlank(m));
    EffectAtBlank(m, 1, ByteStep(m, LF));
  }

  lemma EffectAtBlank(m: Machine, n: nat, r: Machine)
    requires BlankEffect(AtBlank(m), n, r)
    ensures BlankEffect(m, n, r)
  {
    hide LengthConflict, FramingOf, BodyStart, BlankEvents;
    ConflictSame(m.st, HeadersAlmostDone, m.st.nread);
    BodyStartSame(m.st, HeadersAlmostDone, m.st.nread, m.st.upgrade, m.st.flags);
  }

  /** The machine behind a trailer whose blank line took `n` octets. */
  function TrailerDone(m: Machine, n: nat): Machine {
    m.(st := HttpChunked.Completed(m.st.(nread := m.st.nread + n, state := HeadersAlmostDone)), consumed := m.consumed + n,
       exited := m.st.upgrade, log := m.log + [ChunkComplete, MessageComplete])
  }

  lemma TrailerLf(m: Machine)
    requires Normal(m) && m.st.flags.trailing && m.st.nread < MAX_HEADER_SIZE
    ensures ByteStep(AtBlank(m), LF) == TrailerDone(m, 1)
  {
    hide ByteStep, HttpChunked.Completed;
    HttpChunked.StepTrailerLf(AtBlank(m));
  }

  lemma TrailerCrlf(m: Machine)
    requires Normal(m) && m.st.flags.trailing && m.st.nread + 2 <= MAX_HEADER_SIZE
    ensures Run(m, CRLF) == TrailerDone(m, 2)
  {
    hide ByteStep, Run, HttpChunked.Completed;
    HttpChunked.RunTrailer(m);
  }

  lemma DoneAlike(m: Machine)
    ensures var a, b := TrailerDone(m, 1), TrailerDone(m, 2);
      a == b.(st := b.st.(nread := m.st.nread + 1), consumed := m.consumed + 1)
  {
  }

  /** The same behind a trailer. */
  lemma BareTrailer(m: Machine)
    requires Normal(m) && m.st.flags.trailing && m.st.nread + 2 <= MAX_HEADER_SIZE
    ensures var r, t := Run(m, [LF]), Run(m, CRLF);
      r == t.(st := t.st.(nread := m.st.nread + 1), consumed := m.consumed + 1)
  {
    hide ByteStep, Run, TrailerDone, AtBlank;
    RunOne(m, LF);
    StepBareBlank(m);
    TrailerLf(m);
    TrailerCrlf(m);
    DoneAlike(m);
  }

  // ---------- line ends that are demanded ----------

  /** The octet that a state demands. */
  function Demanded(s: State): Option<byte> {
    if s.HeadersAlmostDone? || s.ChunkSizeAlmostDone? || s.ChunkDataDone? then Some(LF)
    else if s.ChunkDataAlmostDone? then Some(CR)
    else None
  }

  lemma ActEndMissing(st: Parser, ch: byte)
    requires st.errno == OK && Demanded(st.state).Some? && ch != Demanded(st.state).value
    ensures Act(st, ch) == Fail(st, STRICT)
  {
    hide Lawful;
  }

  lemma StepEndMissing(m: Machine, ch: byte)
    requires Alive(m) && m.st.nread < MAX_HEADER_SIZE && Demanded(m.st.state).Some? && ch != Demanded(m.st.state).value
    ensures ByteStep(m, ch) == m.(st := Count(m.st).(errno := STRICT))
  {
    hide Act, ByteStep, Demanded;
    ActEndMissing(Count(m.st), ch);
    StepConsume(m, ch, Act(Count(m.st), ch));
  }

  lemma RunPair(m: Machine, s: seq<byte>)
    requires |s| == 2
    ensures Run(m, s) == ByteStep(ByteStep(m, s[0]), s[1])
  {
    hide ByteStep, Run;
    RunTwo(m, s[0], s[1]);
    assert s == [s[0], s[1]];
  }

  /** Behind the data of a chunk there must be CR LF. */
  lemma ChunkEndExact(m: Machine, s: seq<byte>)
    requires Alive(m) && m.st.state == ChunkDataAlmostDone && m.mark.Opened? && m.st.nread < MAX_HEADER_SIZE && |s| == 2
    ensures Run(m, s).st.errno == if s == CRLF then OK else STRICT
  {
    hide Act, ByteStep, Run;
    RunPair(m, s);
    if s == CRLF {
      HttpChunked.RunDataEnd(m);
    } else if s[0] != CR {
      StepEndMissing(m, s[0]);
      StepStopped(ByteStep(m, s[0]), s[1]);
    } else {
      HttpChunked.StepDataCr(m);
      StepEndMissing(ByteStep(m, CR), s[1]);
    }
  }

  /** Behind the CR of a size line there must be a line feed. */
  lemma SizeEndExact(m: Machine, ch: byte)
    requires Alive(m) && (m.st.state == ChunkSize || m.st.state == ChunkParameters) && m.mark == Closed
    requires m.st.nread + 2 <= MAX_HEADER_SIZE
    ensures Run(m, [CR, ch]).st.errno == if ch == LF then OK else STRICT
  {
    hide Act, ByteStep, Run;
    RunTwo(m, CR, ch);
    HttpChunked.StepSizeCr(m);
    if ch == LF {
      HttpChunked.StepSizeLf(ByteStep(m, CR));
    } else {
      StepEndMissing(ByteStep(m, CR), ch);
    }
  }

  /** Behind the CR of a blank line there must be a line feed. */
  lemma BlankEndExact(m: Machine, ch: byte)
    requires Normal(m) && m.st.nread + 2 <= MAX_HEADER_SIZE && ch != LF
    ensures Run(m, [CR, ch]).st.errno == STRICT && Run(m, [CR, ch]).log == m.log
  {
    hide Act, ByteStep, Run;
    RunTwo(m, CR, ch);
    HttpChunked.StepTrailerCr(m);
    StepEndMissing(ByteStep(m, CR), ch);
  }
}
