/** One header line at a time: what the parser makes of `name: value CRLF`. */
module HttpLines {
  import opened Bytes
  import opened HttpTypes
  import opened HttpAct
  import opened HttpMachine
  import opened HttpRuns
  import opened HttpNames

  // ---------- single octets ----------

  lemma ActFirstLetter(st: Parser, ch: byte)
    requires st.errno == OK && st.state == HeaderFieldStart && Token(ch) != 0
    ensures Act(st, ch) == Effect(
      st.(index := 0, state := HeaderField, headerState := FirstHeaderState(Token(ch))), Open(Field), Consume)
  {
    hide Lawful, FirstHeaderState;
    assert ch != CR && ch != LF;
    hide Token;
  }

  lemma ActSpace(st: Parser)
    requires st.errno == OK && st.state == HeaderValueDiscardWs
    ensures Act(st, SP) == Effect(st, Nothing, Consume)
  {
    hide Lawful;
  }

  /** The first octet of a value is acceptable: only a Content-Length can reject it. */
  predicate StartAccepted(st: Parser, ch: byte) {
    st.headerState == ContentLength ==> IsNum(ch) && !st.flags.contentLength
  }

  lemma ActFirstValue(st: Parser, ch: byte)
    requires st.errno == OK && st.state == HeaderValueDiscardWs && ch != SP && ch != HT && ch != CR && ch != LF
    ensures if StartAccepted(st, ch) then Act(st, ch) == Effect(StartValue(st, ch), Open(Value), Consume)
            else Act(st, ch).st.errno != OK && Act(st, ch).next == Consume
  {
    hide Lawful, StartValue;
  }

  lemma ActEmptyValue(st: Parser, ch: byte)
    requires st.errno == OK && ((st.state == HeaderValueDiscardWs && ch == CR)
                                || (st.state == HeaderValueDiscardWsAlmostDone && ch == LF))
    ensures Act(st, ch) == Effect(
      st.(state := if ch == CR then HeaderValueDiscardWsAlmostDone else HeaderValueDiscardLws), Nothing, Consume)
  {
    hide Lawful;
  }

  lemma ActValueCr(st: Parser)
    requires st.errno == OK && st.state == HeaderValue
    ensures Act(st, CR) == Effect(st.(state := HeaderAlmostDone), Close, Consume)
  {
    hide Lawful;
  }

  lemma ActValueLf(st: Parser)
    requires st.errno == OK && st.state == HeaderAlmostDone
    ensures Act(st, LF) == Effect(st.(state := HeaderValueLws), Nothing, Consume)
  {
    hide Lawful;
  }

  // ---------- the name ----------

  /** The name scan of a whole name. */
  function Scanned(name: seq<byte>, te: bool): NameScan
    requires name != []
  {
    NameSteps(NameScan(Matcher(FirstHeaderState(Token(name[0])), 0), te), name[1..])
  }

  /** The parser after `name` and ": ". */
  function NameRead(st: Parser, name: seq<byte>): Parser
    requires name != []
  {
    WithName(st, Scanned(name, st.usesTransferEncoding)).(state := HeaderValueDiscardWs, nread := st.nread + |name| + 2)
  }

  lemma StepFirstLetter(m: Machine, c: byte)
    requires Alive(m) && m.st.state == HeaderFieldStart && m.mark == Closed && m.st.nread < MAX_HEADER_SIZE && Token(c) != 0
    ensures ByteStep(m, c) == m.(
      st := m.st.(index := 0, state := HeaderField, headerState := FirstHeaderState(Token(c)), nread := m.st.nread + 1),
      mark := Opened(Field, [c]), consumed := m.consumed + 1)
  {
    hide Act, ByteStep, Token, FirstHeaderState;
    CountHeader(m.st);
    ActFirstLetter(Count(m.st), c);
    StepConsume(m, c, Act(Count(m.st), c));
    assert [] + [c] == [c];
  }

  lemma RunLetters(m: Machine, name: seq<byte>)
    requires Alive(m) && m.st.state == HeaderFieldStart && m.mark == Closed && name != [] && AllTokens(name)
    requires m.st.nread + |name| <= MAX_HEADER_SIZE
    ensures Run(m, name) == m.(
      st := WithName(m.st, Scanned(name, m.st.usesTransferEncoding)).(state := HeaderField, nread := m.st.nread + |name|),
      mark := Opened(Field, name), consumed := m.consumed + |name|)
  {
    hide Act, ByteStep, Token, FirstHeaderState, NameSteps;
    StepFirstLetter(m, name[0]);
    RunName(ByteStep(m, name[0]), name[1..]);
    assert [name[0]] + name[1..] == name;
  }

  lemma StepColon(m: Machine)
    requires Alive(m) && m.st.state == HeaderField && m.mark.Opened? && m.st.nread < MAX_HEADER_SIZE
    ensures ByteStep(m, ':' as int) == m.(
      st := m.st.(state := HeaderValueDiscardWs, nread := m.st.nread + 1), mark := Closed, consumed := m.consumed + 1,
      log := m.log + [Data(m.mark.part, m.mark.bytes)])
  {
    hide Act, ByteStep, ParsingHeader;
    assert Token(':' as int) == 0;
    ColonEnds(m);
  }

  lemma ActColon(st: Parser)
    requires st.errno == OK && st.state == HeaderField
    ensures Act(st, ':' as int) == Effect(st.(state := HeaderValueDiscardWs), Close, Consume)
  {
    hide Lawful;
  }

  lemma ColonEnds(m: Machine)
    requires Alive(m) && m.st.state == HeaderField && m.mark.Opened? && m.st.nread < MAX_HEADER_SIZE
    ensures ByteStep(m, ':' as int) == Advance(Flush(m).(
      st := m.st.(state := HeaderValueDiscardWs, nread := m.st.nread + 1)), ':' as int)
  {
    hide Act, ByteStep;
    CountHeader(m.st);
    ActColon(Count(m.st));
    StepConsume(m, ':' as int, Act(Count(m.st), ':' as int));
  }

  lemma StepSpace(m: Machine)
    requires Alive(m) && m.st.state == HeaderValueDiscardWs && m.mark == Closed && m.st.nread < MAX_HEADER_SIZE
    ensures ByteStep(m, SP) == m.(st := m.st.(nread := m.st.nread + 1), consumed := m.consumed + 1)
  {
    hide Act, ByteStep;
    CountHeader(m.st);
    ActSpace(Count(m.st));
    StepConsume(m, SP, Act(Count(m.st), SP));
  }

  const COLON_SP: seq<byte> := [':' as int, SP]

  /** A name, the colon and the space. */
  lemma RunNamePart(m: Machine, name: seq<byte>)
    requires Alive(m) && m.st.state == HeaderFieldStart && m.mark == Closed && name != [] && AllTokens(name)
    requires m.st.nread + |name| + 2 <= MAX_HEADER_SIZE
    ensures Run(m, name + COLON_SP) == m.(
      st := NameRead(m.st, name), consumed := m.consumed + |name| + 2, log := m.log + [Data(Field, name)])
  {
    hide Act, ByteStep, Token, Run, Scanned, WithName;
    RunLetters(m, name);
    var m1 := Run(m, name);
    StepColon(m1);
    StepSpace(ByteStep(m1, ':' as int));
    RunTwo(m1, ':' as int, SP);
    RunConcat(m, name, COLON_SP);
  }

  // ---------- the value ----------

  /** A value as a sender writes it: visible octets and inner white space, none of it leading. */
  predicate IsValueText(v: seq<byte>) {
    && (forall i :: 0 <= i < |v| ==> IsHeaderChar(v[i]) && v[i] != CR && v[i] != LF)
    && (v != [] ==> v[0] != SP && v[0] != HT)
  }

  /** What a value may be for the loop over it: no line end inside, no white space in front. */
  predicate IsOneValue(v: seq<byte>) {
    NoLineEnd(v) && (v != [] ==> v[0] != SP && v[0] != HT)
  }

  lemma TextIsValue(v: seq<byte>)
    requires IsValueText(v)
    ensures IsOneValue(v)
  {
  }

  /** The scan of a whole nonempty value, from the parser that has just read the name. */
  function ValueScanned(st: Parser, v: seq<byte>): ValueScan
    requires v != []
  {
    ValueSteps(ValueOf(StartValue(st, v[0])), st.lenient, v[1..])
  }

  predicate ValueAccepted(st: Parser, v: seq<byte>) {
    v == [] || (StartAccepted(st, v[0]) && ValueScanned(st, v).errno == OK)
  }

  /** The parser after a value and CRLF. */
  function ValueRead(st: Parser, v: seq<byte>): Parser {
    (if v == [] then st.(state := HeaderValueDiscardLws)
     else WithValue(StartValue(st, v[0]), ValueScanned(st, v)).(state := HeaderValueLws)).(nread := st.nread + |v| + 2)
  }

  lemma StepFirstValue(m: Machine, c: byte)
    requires Alive(m) && m.st.state == HeaderValueDiscardWs && m.mark == Closed && m.st.nread < MAX_HEADER_SIZE
    requires c != SP && c != HT && c != CR && c != LF
    ensures if StartAccepted(m.st, c) then
              ByteStep(m, c) == m.(st := StartValue(m.st, c).(nread := m.st.nread + 1), mark := Opened(Value, [c]),
                                   consumed := m.consumed + 1)
            else ByteStep(m, c).st.errno != OK
  {
    hide Act, ByteStep;
    CountHeader(m.st);
    ActFirstValue(Count(m.st), c);
    StepConsume(m, c, Act(Count(m.st), c));
    StartValueNread(m.st, c, m.st.nread + 1);
    hide StartValue;
    assert [] + [c] == [c];
  }

  lemma StartValueNread(st: Parser, c: byte, n: nat)
    ensures StartValue(st.(nread := n), c) == StartValue(st, c).(nread := n)
    ensures StartValue(st, c).nread == st.nread && StartValue(st, c).lenient == st.lenient
  {
    hide FirstValueState;
  }

  lemma StepValueCr(m: Machine)
    requires Alive(m) && m.st.state == HeaderValue && m.mark.Opened? && m.st.nread < MAX_HEADER_SIZE
    ensures ByteStep(m, CR) == m.(
      st := m.st.(state := HeaderAlmostDone, nread := m.st.nread + 1), mark := Closed, consumed := m.consumed + 1,
      log := m.log + [Data(m.mark.part, m.mark.bytes)])
  {
    hide Act, ByteStep;
    CountHeader(m.st);
    ActValueCr(Count(m.st));
    StepConsume(m, CR, Act(Count(m.st), CR));
  }

  lemma StepValueLf(m: Machine)
    requires Alive(m) && m.st.state == HeaderAlmostDone && m.mark == Closed && m.st.nread < MAX_HEADER_SIZE
    ensures ByteStep(m, LF) == m.(st := m.st.(state := HeaderValueLws, nread := m.st.nread + 1), consumed := m.consumed + 1)
  {
    hide Act, ByteStep;
    CountHeader(m.st);
    ActValueLf(Count(m.st));
    StepConsume(m, LF, Act(Count(m.st), LF));
  }

  lemma RunValueEnd(m: Machine)
    requires Alive(m) && m.st.state == HeaderValue && m.mark.Opened? && m.st.nread + 2 <= MAX_HEADER_SIZE
    ensures Run(m, CRLF) == m.(
      st := m.st.(state := HeaderValueLws, nread := m.st.nread + 2), mark := Closed, consumed := m.consumed + 2,
      log := m.log + [Data(m.mark.part, m.mark.bytes)])
  {
    hide Act, ByteStep, Run;
    StepValueCr(m);
    StepValueLf(ByteStep(m, CR));
    RunTwo(m, CR, LF);
  }

  lemma StepEmpty(m: Machine, ch: byte)
    requires Alive(m) && m.mark == Closed && m.st.nread < MAX_HEADER_SIZE
    requires (m.st.state == HeaderValueDiscardWs && ch == CR) || (m.st.state == HeaderValueDiscardWsAlmostDone && ch == LF)
    ensures ByteStep(m, ch) == m.(
      st := m.st.(state := if ch == CR then HeaderValueDiscardWsAlmostDone else HeaderValueDiscardLws,
                  nread := m.st.nread + 1), consumed := m.consumed + 1)
  {
    hide Act, ByteStep;
    CountHeader(m.st);
    ActEmptyValue(Count(m.st), ch);
    StepConsume(m, ch, Act(Count(m.st), ch));
  }

  lemma RunEmptyValue(m: Machine)
    requires Alive(m) && m.st.state == HeaderValueDiscardWs && m.mark == Closed && m.st.nread + 2 <= MAX_HEADER_SIZE
    ensures Run(m, CRLF) == m.(st := ValueRead(m.st, []), consumed := m.consumed + 2)
  {
    hide Act, ByteStep, Run;
    StepEmpty(m, CR);
    StepEmpty(ByteStep(m, CR), LF);
    RunTwo(m, CR, LF);
  }

  lemma RunValueOctets(m: Machine, v: seq<byte>)
    requires Alive(m) && m.st.state == HeaderValueDiscardWs && m.mark == Closed && v != [] && IsOneValue(v)
    requires m.st.nread + |v| <= MAX_HEADER_SIZE
    ensures if ValueAccepted(m.st, v) then
              Run(m, v) == m.(
                st := WithValue(StartValue(m.st, v[0]), ValueScanned(m.st, v)).(nread := m.st.nread + |v|),
                mark := Opened(Value, v), consumed := m.consumed + |v|)
            else Run(m, v).st.errno != OK
  {
    hide Act, ByteStep, ValueSteps, IsHeaderChar, StartAccepted, StartValue, ValueOf, WithValue;
    StepFirstValue(m, v[0]);
    var m1 := ByteStep(m, v[0]);
    if !StartAccepted(m.st, v[0]) {
      RunStopped(m1, v[1..]);
    } else {
      StartValueNread(m.st, v[0], m.st.nread + 1);
      ValueOfNread(StartValue(m.st, v[0]), m.st.nread + 1);
      if ValueScanned(m.st, v).errno == OK {
        RunValue(m1, v[1..]);
        assert [v[0]] + v[1..] == v;
        WithValueNread(StartValue(m.st, v[0]), ValueScanned(m.st, v), m.st.nread + 1);
      } else {
        RunValueFails(m1, v[1..]);
      }
    }
  }

  /** A value and its CRLF: the callbacks, or the error of a value that is refused. */
  lemma RunValuePart(m: Machine, v: seq<byte>)
    requires Alive(m) && m.st.state == HeaderValueDiscardWs && m.mark == Closed && IsOneValue(v)
    requires m.st.nread + |v| + 2 <= MAX_HEADER_SIZE
    ensures if ValueAccepted(m.st, v) then
              Run(m, v + CRLF) == m.(
                st := ValueRead(m.st, v), consumed := m.consumed + |v| + 2,
                log := m.log + if v == [] then [] else [Data(Value, v)])
            else Run(m, v + CRLF).st.errno != OK
  {
    hide Act, ByteStep, Run, ValueScanned, IsOneValue, StartValue, WithValue, StartAccepted;
    RunConcat(m, v, CRLF);
    if v == [] {
      assert v + CRLF == CRLF;
      RunEmptyValue(m);
      assert m.log + [] == m.log;
    } else {
      RunValueOctets(m, v);
      if ValueAccepted(m.st, v) {
        RunValueEnd(Run(m, v));
      } else {
        RunStopped(Run(m, v), CRLF);
      }
    }
  }
}
