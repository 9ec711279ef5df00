/** Every form in which a header line is accepted, and no other: any white space or none in front of the value, and a bare
    line feed; and the folded lines behind it. */
module HttpHeaderForms {
  import opened Bytes
  import opened HttpTypes
  import opened HttpAct
  import opened HttpMachine
  import opened HttpRuns
  import opened HttpNames
  import opened HttpLines
  import opened HttpStatusForms
  import opened HttpResponse

  datatype HeaderForm = HeaderForm(name: seq<byte>, blanks: seq<byte>, value: seq<byte>, bare: bool)

  predicate IsBlank(c: byte) {
    c == SP || c == HT
  }

  predicate AllBlanks(s: seq<byte>) {
    forall i :: 0 <= i < |s| ==> IsBlank(s[i])
  }

  function HeaderFormText(f: HeaderForm): seq<byte> {
    f.name + [':' as int] + (f.blanks + (f.value + LineEnd(f.bare)))
  }

  /** The line as it is usually written. */
  function PlainLine(f: HeaderForm): seq<byte> {
    f.name + COLON_SP + (f.value + CRLF)
  }

  predicate HeaderFormOk(f: HeaderForm) {
    f.name != [] && AllTokens(f.name) && AllBlanks(f.blanks) && IsOneValue(f.value)
  }

  predicate AtHeader(m: Machine, n: nat) {
    Alive(m) && m.st.state == HeaderFieldStart && m.mark == Closed && m.st.nread + n <= MAX_HEADER_SIZE
  }

  predicate AtValue(m: Machine, n: nat) {
    Alive(m) && m.st.state == HeaderValueDiscardWs && m.mark == Closed && m.st.nread + n <= MAX_HEADER_SIZE
  }

  /** The machine but for the number of octets read. */
  function Recounted(m: Machine, n: nat, k: nat): Machine {
    m.(st := m.st.(nread := n), consumed := k)
  }

  // ---------- in front of the value ----------

  lemma ActBlank(st: Parser, ch: byte)
    requires st.errno == OK && st.state == HeaderValueDiscardWs && IsBlank(ch)
    ensures Act(st, ch) == Stay(st)
  {
    hide Lawful;
  }

  lemma StepBlank(m: Machine, ch: byte)
    requires AtValue(m, 1) && IsBlank(ch)
    ensures ByteStep(m, ch) == m.(st := m.st.(nread := m.st.nread + 1), consumed := m.consumed + 1)
  {
    hide Act, ByteStep;
    CountHeader(m.st);
    ActBlank(Count(m.st), ch);
    StepConsume(m, ch, Act(Count(m.st), ch));
  }

  lemma {:induction false} RunBlanks(m: Machine, s: seq<byte>)
    requires AtValue(m, |s|) && AllBlanks(s)
    ensures Run(m, s) == m.(st := m.st.(nread := m.st.nread + |s|), consumed := m.consumed + |s|)
    decreases |s|
  {
    hide ByteStep;
    if s != [] {
      StepBlank(m, s[0]);
      RunBlanks(ByteStep(m, s[0]), s[1..]);
    }
  }

  /** The parser behind a name and its colon. */
  function Named(m: Machine, name: seq<byte>, n: nat): Machine
    requires name != []
  {
    m.(st := WithName(m.st, Scanned(name, m.st.usesTransferEncoding)).(state := HeaderValueDiscardWs, nread := m.st.nread + n),
       consumed := m.consumed + n, log := m.log + [Data(Field, name)])
  }

  lemma NamedFacts(m: Machine, name: seq<byte>, n: nat)
    requires Alive(m) && m.mark == Closed && name != []
    ensures var r := Named(m, name, n);
      Alive(r) && r.st.state == HeaderValueDiscardWs && r.mark == Closed && r.st.nread == m.st.nread + n
    ensures m.st.nread + n == Named(m, name, n).st.nread
  {
    hide Scanned;
  }

  lemma RunNameColon(m: Machine, name: seq<byte>)
    requires AtHeader(m, |name| + 1) && name != [] && AllTokens(name)
    ensures Run(m, name + [':' as int]) == Named(m, name, |name| + 1)
  {
    hide Act, ByteStep, Token, Run, Scanned, WithName;
    RunLetters(m, name);
    var m1 := Run(m, name);
    StepColon(m1);
    RunSnoc(m, name, ':' as int);
  }

  // ---------- the end of the value ----------

  lemma ActValueBareLf(st: Parser)
    requires st.errno == OK
    ensures st.state == HeaderValue ==> Act(st, LF) == Effect(st.(state := HeaderAlmostDone), Close, Again)
    ensures st.state == HeaderValueDiscardWs ==> Act(st, LF) == Goto(st, HeaderValueDiscardLws)
  {
    hide Lawful, Token, StartValue, FoldLine, ActStart, ActBody, ActChunkHeader, ActHeadersAlmostDone, ActHeadersDone,
         ActReqMethod, ActSpacesBeforeUrl, ActUrl, ActRequestProtocol, ActRequestVersion, ActResponseProtocol,
         ActResponseVersion, ActResponseStatus;
  }

  lemma DispatchBareLf(m: Machine)
    requires m.st.errno == OK && m.st.state == HeaderValue && m.mark.Opened? && !m.exited
    ensures Dispatch(m, LF) == m.(st := m.st.(state := HeaderValueLws), mark := Closed,
      log := m.log + [Data(m.mark.part, m.mark.bytes)])
  {
    hide Act, Dispatch;
    ActValueBareLf(m.st);
    DispatchOnce(m, LF, Act(m.st, LF));
    AlmostDone(Flush(m).(st := m.st.(state := HeaderAlmostDone)));
  }

  lemma AlmostDone(m: Machine)
    requires m.st.errno == OK && m.st.state == HeaderAlmostDone && m.mark == Closed && !m.exited
    ensures Dispatch(m, LF) == m.(st := m.st.(state := HeaderValueLws))
  {
    hide Act, Dispatch;
    ActValueLf(m.st);
    DispatchOnce(m, LF, Act(m.st, LF));
  }

  lemma StepBareLf(m: Machine)
    requires Alive(m) && m.st.state == HeaderValue && m.mark.Opened? && m.st.nread < MAX_HEADER_SIZE
    ensures ByteStep(m, LF) == m.(
      st := m.st.(state := HeaderValueLws, nread := m.st.nread + 1), mark := Closed, consumed := m.consumed + 1,
      log := m.log + [Data(m.mark.part, m.mark.bytes)])
  {
    hide Act, ByteStep, Dispatch;
    CountHeader(m.st);
    StepCounting(m, LF);
    DispatchBareLf(m.(st := Count(m.st)));
  }

  lemma StepEmptyBareLf(m: Machine)
    requires AtValue(m, 1)
    ensures ByteStep(m, LF) == m.(st := m.st.(state := HeaderValueDiscardLws, nread := m.st.nread + 1),
      consumed := m.consumed + 1)
  {
    hide Act, ByteStep, Count;
    CountHeader(m.st);
    ActValueBareLf(Count(m.st));
    StepConsume(m, LF, Act(Count(m.st), LF));
  }

  /** The parser behind a value, `n` octets after the colon and the white space. */
  function Valued(m: Machine, v: seq<byte>, n: nat): Machine {
    Past(m, ValueRead(m.st, v).(nread := m.st.nread + n), v, n)
  }

  /** The machine behind a value, with a parser to go on with. */
  function Past(m: Machine, st: Parser, v: seq<byte>, n: nat): Machine {
    m.(st := st, consumed := m.consumed + n, log := m.log + if v == [] then [] else [Data(Value, v)])
  }

  /** The machine inside a value. */
  function Inside(m: Machine, st: Parser, v: seq<byte>): Machine {
    m.(st := st, mark := Opened(Value, v), consumed := m.consumed + |v|)
  }

  lemma RunBareValue(m: Machine, v: seq<byte>)
    requires AtValue(m, |v| + 1) && IsOneValue(v)
    ensures if ValueAccepted(m.st, v) then Run(m, v + [LF]) == Valued(m, v, |v| + 1) else Run(m, v + [LF]).st.errno != OK
  {
    hide ByteStep, Run, ValueScanned, IsOneValue, StartValue, WithValue, StartAccepted;
    RunSnoc(m, v, LF);
    if v == [] {
      RunEmpty(m);
      StepEmptyBareLf(m);
      assert m.log + [] == m.log;
    } else {
      hide Valued;
      RunValueOctets(m, v);
      if ValueAccepted(m.st, v) {
        ValueBareEnd(m, v);
      } else {
        AliveOrNot(Run(m, v));
        StepStopped(Run(m, v), LF);
      }
    }
  }

  lemma ScannedFacts(st: Parser, v: seq<byte>, n: nat)
    requires v != [] && ValueAccepted(st, v)
    ensures var r := WithValue(StartValue(st, v[0]), ValueScanned(st, v));
      && r.errno == OK && r.state == HeaderValue
      && r.(state := HeaderValueLws, nread := n) == ValueRead(st, v).(nread := n)
  {
    hide ValueScanned, StartAccepted, FirstValueState;
  }

  lemma ValueBareEnd(m: Machine, v: seq<byte>)
    requires AtValue(m, |v| + 1) && v != [] && ValueAccepted(m.st, v)
    ensures var st := WithValue(StartValue(m.st, v[0]), ValueScanned(m.st, v)).(nread := m.st.nread + |v|);
      ByteStep(Inside(m, st, v), LF) == Valued(m, v, |v| + 1)
  {
    hide ByteStep, ValueScanned, ValueAccepted, StartValue, WithValue, ValueRead, Past, Inside;
    ScannedFacts(m.st, v, m.st.nread + |v| + 1);
    BareEnds(m, WithValue(StartValue(m.st, v[0]), ValueScanned(m.st, v)).(nread := m.st.nread + |v|), v);
  }

  lemma BareEnds(m: Machine, st: Parser, v: seq<byte>)
    requires !m.exited && m.mark == Closed && st.errno == OK && st.state == HeaderValue && st.nread < MAX_HEADER_SIZE && v != []
    ensures ByteStep(Inside(m, st, v), LF) == Past(m, st.(state := HeaderValueLws, nread := st.nread + 1), v, |v| + 1)
  {
    hide ByteStep;
    StepBareLf(Inside(m, st, v));
  }

  lemma RunValueForm(m: Machine, v: seq<byte>, bare: bool)
    requires AtValue(m, |v| + |LineEnd(bare)|) && IsOneValue(v)
    ensures var r := Run(m, v + LineEnd(bare));
      if ValueAccepted(m.st, v) then r == Valued(m, v, |v| + |LineEnd(bare)|) else r.st.errno != OK
  {
    hide Run, ValueScanned, IsOneValue, ValueAccepted, StartValue, WithValue, ValueRead;
    if bare {
      RunBareValue(m, v);
    } else {
      ValueReadSize(m.st, v);
      RunValuePart(m, v);
    }
  }

  lemma ValueReadSize(st: Parser, v: seq<byte>)
    ensures ValueRead(st, v).nread == st.nread + |v| + 2
  {
    hide ValueScanned, StartValue, WithValue;
  }

  // ---------- the whole line ----------

  /** The count plays no part in reading a value. */
  lemma ValueReadCount(st: Parser, v: seq<byte>, n: nat)
    ensures ValueAccepted(st.(nread := n), v) == ValueAccepted(st, v)
    ensures ValueRead(st.(nread := n), v).(nread := 0) == ValueRead(st, v).(nread := 0)
    ensures ValueRead(st, v).errno == OK || v == [] || !ValueAccepted(st, v)
  {
    hide StartValue, ValueSteps, FirstValueState;
    if v != [] {
      StartValueNread(st, v[0], n);
      ValueOfNread(StartValue(st, v[0]), n);
    }
  }

  /** The parser behind a line of `n` octets. */
  function LineDone(m: Machine, name: seq<byte>, v: seq<byte>, n: nat): Machine
    requires name != []
  {
    m.(st := ValueRead(Named(m, name, 0).st, v).(nread := m.st.nread + n), consumed := m.consumed + n,
       log := m.log + [Data(Field, name)] + if v == [] then [] else [Data(Value, v)])
  }

  lemma ValuedIsDone(m: Machine, name: seq<byte>, v: seq<byte>, k: nat, n: nat)
    requires name != []
    ensures var m1 := Named(m, name, k);
      && (ValueAccepted(m1.st, v) <==> ValueAccepted(Named(m, name, 0).st, v))
      && Valued(m1, v, n) == LineDone(m, name, v, k + n)
  {
    hide ValueRead, ValueAccepted, Scanned;
    var st := Named(m, name, 0).st;
    assert Named(m, name, k).st == st.(nread := m.st.nread + k);
    ValueReadCount(st, v, m.st.nread + k);
    assert m.log + [Data(Field, name)] + (if v == [] then [] else [Data(Value, v)])
        == m.log + ([Data(Field, name)] + if v == [] then [] else [Data(Value, v)]);
  }

  lemma BlanksNamed(m: Machine, name: seq<byte>, k: nat, n: nat)
    requires name != []
    ensures Named(m, name, k).(st := Named(m, name, k).st.(nread := Named(m, name, k).st.nread + n),
                               consumed := Named(m, name, k).consumed + n) == Named(m, name, k + n)
  {
    hide Scanned;
  }

  lemma RunToEnd(m: Machine, name: seq<byte>, blanks: seq<byte>, v: seq<byte>, bare: bool)
    requires AtHeader(m, |name| + 1 + |blanks| + |v| + |LineEnd(bare)|)
    requires name != [] && AllTokens(name) && AllBlanks(blanks) && IsOneValue(v)
    ensures var r := Run(m, name + [':' as int] + (blanks + (v + LineEnd(bare))));
      if ValueAccepted(Named(m, name, 0).st, v) then
        r == LineDone(m, name, v, |name| + 1 + |blanks| + |v| + |LineEnd(bare)|)
      else r.st.errno != OK
  {
    hide Run, AllTokens, AllBlanks, IsOneValue, Named, LineEnd, Valued, ValueAccepted, LineDone;
    var k, n := |name| + 1, |v| + |LineEnd(bare)|;
    RunConcat(m, name + [':' as int], blanks + (v + LineEnd(bare)));
    RunNameColon(m, name);
    NamedFacts(m, name, k);
    var m1 := Named(m, name, k);
    RunConcat(m1, blanks, v + LineEnd(bare));
    RunBlanks(m1, blanks);
    BlanksNamed(m, name, k, |blanks|);
    NamedFacts(m, name, k + |blanks|);
    RunValueForm(Named(m, name, k + |blanks|), v, bare);
    ValuedIsDone(m, name, v, k + |blanks|, n);
  }

  lemma DoneFacts(m: Machine, name: seq<byte>, v: seq<byte>, n: nat, k: nat)
    requires name != []
    ensures LineDone(m, name, v, n) == Recounted(LineDone(m, name, v, k), m.st.nread + n, m.consumed + n)
    ensures LineDone(m, name, v, n).st.errno == ValueRead(Named(m, name, 0).st, v).errno
  {
    hide ValueRead, Named;
  }

  lemma FormLength(f: HeaderForm)
    ensures |HeaderFormText(f)| == |f.name| + 1 + |f.blanks| + |f.value| + |LineEnd(f.bare)|
    ensures PlainLine(f) == f.name + [':' as int] + ([SP] + (f.value + LineEnd(false)))
    ensures |PlainLine(f)| == |f.name| + 2 + |f.value| + 2
    ensures AllBlanks([SP])
  {
  }

  /** White space in front of the value and the end of the line make no difference: the line does what the plain one does. */
  lemma RunHeaderForm(m: Machine, f: HeaderForm)
    requires AtHeader(m, |HeaderFormText(f)|) && AtHeader(m, |PlainLine(f)|) && HeaderFormOk(f)
    ensures var n, r, plain := |HeaderFormText(f)|, Run(m, HeaderFormText(f)), Run(m, PlainLine(f));
      if plain.st.errno == OK then r == Recounted(plain, m.st.nread + n, m.consumed + n) else r.st.errno != OK
  {
    hide Run, AllTokens, AllBlanks, IsOneValue, Named, LineEnd, ValueAccepted, LineDone, ValueRead, PlainLine, Recounted;
    FormLength(f);
    RunToEnd(m, f.name, f.blanks, f.value, f.bare);
    RunToEnd(m, f.name, [SP], f.value, false);
    DoneFacts(m, f.name, f.value, |HeaderFormText(f)|, |PlainLine(f)|);
    DoneFacts(m, f.name, f.value, |PlainLine(f)|, |PlainLine(f)|);
    LineEndTwo();
  }

  lemma LineEndTwo()
    ensures |LineEnd(false)| == 2
  {
  }

  // ---------- no other line ----------

  lemma ActNoName(st: Parser, ch: byte)
    requires st.errno == OK && Token(ch) == 0
    ensures st.state == HeaderFieldStart && ch != CR && ch != LF ==> Act(st, ch).st.errno != OK && Act(st, ch).next == Consume
    ensures st.state == HeaderField && ch != ':' as int ==> Act(st, ch).st.errno != OK && Act(st, ch).next == Consume
  {
    hide Lawful, Token, ActStart, ActBeforeValue, ActBody, ActChunkHeader, ActHeadersAlmostDone, ActHeadersDone, ActReqMethod,
         ActSpacesBeforeUrl, ActUrl, ActRequestProtocol, ActRequestVersion, ActResponseProtocol, ActResponseVersion,
         ActResponseStatus;
  }

  lemma ActNoLineFeed(st: Parser, ch: byte)
    requires st.errno == OK && (st.state == HeaderAlmostDone || st.state == HeaderValueDiscardWsAlmostDone) && ch != LF
    ensures Act(st, ch).st.errno != OK && Act(st, ch).next == Consume
  {
    hide Lawful, Token, ActStart, ActBody, ActChunkHeader, ActHeadersAlmostDone, ActHeadersDone, ActReqMethod,
         ActSpacesBeforeUrl, ActUrl, ActRequestProtocol, ActRequestVersion, ActResponseProtocol, ActResponseVersion,
         ActResponseStatus;
  }

  /** A line must begin with the octet of a name. */
  lemma NoNameAtAll(m: Machine, rest: seq<byte>)
    requires AtHeader(m, 1) && rest != [] && Token(rest[0]) == 0 && rest[0] != CR && rest[0] != LF
    ensures Run(m, rest).st.errno != OK
  {
    hide Act, ByteStep, Count, Token;
    CountHeader(m.st);
    ActNoName(Count(m.st), rest[0]);
    StepFails(m, rest[0]);
    RunStopped(ByteStep(m, rest[0]), rest[1..]);
  }

  /** Behind a name there must be its colon. */
  lemma NoColon(m: Machine, name: seq<byte>, rest: seq<byte>)
    requires AtHeader(m, |name| + 1) && name != [] && AllTokens(name)
    requires rest != [] && Token(rest[0]) == 0 && rest[0] != ':' as int
    ensures Run(m, name + rest).st.errno != OK
  {
    hide Act, ByteStep, Count, Token, Run, Scanned, WithName;
    RunLetters(m, name);
    RunConcat(m, name, rest);
    var r := Run(m, name);
    CountHeader(r.st);
    ActNoName(Count(r.st), rest[0]);
    StepFails(r, rest[0]);
    RunFirstStops(r, rest);
  }

  lemma RunFirstStops(m: Machine, s: seq<byte>)
    requires s != [] && ByteStep(m, s[0]).st.errno != OK
    ensures Run(m, s).st.errno != OK
  {
    hide ByteStep;
    AliveOrNot(ByteStep(m, s[0]));
    RunStopped(ByteStep(m, s[0]), s[1..]);
  }

  /** Behind a carriage return there must be the line feed. */
  lemma NoLineFeed(m: Machine, v: seq<byte>, rest: seq<byte>)
    requires AtValue(m, |v| + 2) && IsOneValue(v) && rest != [] && rest[0] != LF
    ensures Run(m, v + ([CR] + rest)).st.errno != OK
  {
    hide Act, ByteStep, Count, Run, ValueScanned, IsOneValue, StartValue, WithValue, StartAccepted;
    RunConcat(m, v, [CR] + rest);
    if v == [] {
      RunEmpty(m);
      StepEmpty(m, CR);
      CrThen(m, rest);
    } else {
      RunValueOctets(m, v);
      var r := Run(m, v);
      if ValueAccepted(m.st, v) {
        StepValueCr(r);
        CrThen(r, rest);
      } else {
        AliveOrNot(r);
        RunStopped(r, [CR] + rest);
      }
    }
  }

  lemma CrThen(m: Machine, rest: seq<byte>)
    requires rest != [] && rest[0] != LF
    requires var r := ByteStep(m, CR);
      Alive(r) && r.st.nread < MAX_HEADER_SIZE
      && (r.st.state == HeaderAlmostDone || r.st.state == HeaderValueDiscardWsAlmostDone)
    ensures Run(m, [CR] + rest).st.errno != OK
  {
    hide Act, ByteStep, Count, Run;
    var r := ByteStep(m, CR);
    RunConcat(m, [CR], rest);
    RunOne(m, CR);
    CountHeader(r.st);
    ActNoLineFeed(Count(r.st), rest[0]);
    StepFails(r, rest[0]);
    RunFirstStops(r, rest);
  }

  /** The longest beginning of a text that could be a name. */
  lemma {:induction false} LeadingTokens(s: seq<byte>) returns (a: seq<byte>, b: seq<byte>)
    ensures s == a + b && AllTokens(a) && (b != [] ==> Token(b[0]) == 0)
    decreases |s|
  {
    hide Token;
    if s == [] || Token(s[0]) == 0 {
      a, b := [], s;
      assert s == [] + s;
    } else {
      a, b := LeadingTokens(s[1..]);
      assert s == [s[0]] + s[1..];
      a := [s[0]] + a;
    }
  }

  lemma {:induction false} LeadingBlanks(s: seq<byte>) returns (a: seq<byte>, b: seq<byte>)
    ensures s == a + b && AllBlanks(a) && (b != [] ==> !IsBlank(b[0]))
    decreases |s|
  {
    if s == [] || !IsBlank(s[0]) {
      a, b := [], s;
      assert s == [] + s;
    } else {
      a, b := LeadingBlanks(s[1..]);
      assert s == [s[0]] + s[1..];
      a := [s[0]] + a;
    }
  }

  lemma {:induction false} BeforeReturn(s: seq<byte>) returns (a: seq<byte>, b: seq<byte>)
    ensures s == a + b && CR !in a && (b != [] ==> b[0] == CR)
    decreases |s|
  {
    if s == [] || s[0] == CR {
      a, b := [], s;
      assert s == [] + s;
    } else {
      a, b := BeforeReturn(s[1..]);
      assert s == [s[0]] + s[1..];
      a := [s[0]] + a;
    }
  }

  lemma TokensAreNoMarks()
    ensures Token(LF) == 0 && Token(':' as int) == 0
  {
  }

  /** The value and the end of a line, behind the white space. */
  lemma ValueFound(m: Machine, u: seq<byte>) returns (v: seq<byte>, bare: bool)
    requires AtValue(m, |u| + 2) && LF !in u && (u != [] ==> !IsBlank(u[0])) && Run(m, u + [LF]).st.errno == OK
    ensures IsOneValue(v) && u + [LF] == v + LineEnd(bare)
  {
    hide Run;
    var rest;
    v, rest := BeforeReturn(u);
    OneValue(u, v, rest);
    bare := rest == [];
    if rest != [] {
      assert u + [LF] == v + ([CR] + (rest[1..] + [LF]));
      if rest[1..] != [] {
        assert (rest[1..] + [LF])[0] == u[|v| + 1];
        NoLineFeed(m, v, rest[1..] + [LF]);
      }
      assert [CR] + ([] + [LF]) == CRLF;
    }
  }

  lemma OneValue(u: seq<byte>, v: seq<byte>, rest: seq<byte>)
    requires u == v + rest && LF !in u && CR !in v && (u != [] ==> !IsBlank(u[0]))
    ensures IsOneValue(v)
  {
    forall i | 0 <= i < |v| ensures v[i] != CR && v[i] != LF {
      assert v[i] == u[i];
    }
  }

  /** What a header line may be taken to pieces into. */
  lemma HeaderFound(m: Machine, w: seq<byte>) returns (f: HeaderForm)
    requires AtHeader(m, |w| + 2) && w != [] && LF !in w && w[0] != CR && Run(m, w + [LF]).st.errno == OK
    ensures HeaderFormOk(f) && HeaderFormText(f) == w + [LF]
  {
    hide Run, AllTokens, AllBlanks, IsOneValue, Named, LineEnd, Token;
    TokensAreNoMarks();
    var name, rest := LeadingTokens(w);
    assert w + [LF] == name + (rest + [LF]);
    if name == [] {
      assert (w + [LF])[0] == w[0] == rest[0];
      NoNameAtAll(m, w + [LF]);
    }
    if (rest + [LF])[0] != ':' as int {
      NoColon(m, name, rest + [LF]);
    }
    var u := rest[1..];
    assert w + [LF] == name + [':' as int] + (u + [LF]);
    RunConcat(m, name + [':' as int], u + [LF]);
    RunNameColon(m, name);
    NamedFacts(m, name, |name| + 1);
    assert w == name + [':' as int] + u;
    NotBehindEither(w, name + [':' as int], u);
    var blanks, v, bare := BlanksFound(Named(m, name, |name| + 1), u);
    f := HeaderForm(name, blanks, v, bare);
  }

  lemma NotBehindEither(u: seq<byte>, a: seq<byte>, b: seq<byte>)
    requires LF !in u && u == a + b
    ensures LF !in b
  {
    forall i | 0 <= i < |b| ensures b[i] != LF {
      assert b[i] == u[|a| + i];
    }
  }

  lemma BlanksFound(m: Machine, u: seq<byte>) returns (blanks: seq<byte>, v: seq<byte>, bare: bool)
    requires AtValue(m, |u| + 2) && LF !in u && Run(m, u + [LF]).st.errno == OK
    ensures AllBlanks(blanks) && IsOneValue(v) && u + [LF] == blanks + (v + LineEnd(bare))
  {
    hide Run, AllBlanks, IsOneValue, LineEnd;
    var rest;
    blanks, rest := LeadingBlanks(u);
    assert u + [LF] == blanks + (rest + [LF]);
    RunConcat(m, blanks, rest + [LF]);
    RunBlanks(m, blanks);
    NotBehindEither(u, blanks, rest);
    v, bare := ValueFound(Run(m, blanks), rest);
  }

  /** A line is taken as a header line if and only if it has one of the forms above, and the plain line with the same name and
      value is taken. */
  lemma HeaderLineExact(m: Machine, w: seq<byte>)
    requires AtHeader(m, |w| + 4) && w != [] && LF !in w && w[0] != CR
    ensures Run(m, w + [LF]).st.errno == OK <==>
      exists f: HeaderForm :: HeaderFormOk(f) && HeaderFormText(f) == w + [LF] && Run(m, PlainLine(f)).st.errno == OK
  {
    hide Run, HeaderFormOk, HeaderFormText, PlainLine;
    forall f: HeaderForm | HeaderFormOk(f) && HeaderFormText(f) == w + [LF]
      ensures Run(m, PlainLine(f)).st.errno == OK <==> Run(m, w + [LF]).st.errno == OK
    {
      FormLength(f);
      LineEndSize(f.bare);
      RunHeaderForm(m, f);
    }
    if Run(m, w + [LF]).st.errno == OK {
      var f := HeaderFound(m, w);
    }
  }

  // ---------- which values ----------

  /** A strict parser refuses a control octet anywhere but at the beginning of a value; a lenient one takes any octet. */
  lemma {:induction false} ScanAccepts(v: ValueScan, lenient: bool, s: seq<byte>)
    requires v.errno == OK && !IsLength(v.m.h)
    ensures ValueSteps(v, lenient, s).errno == OK <==> lenient || forall i :: 0 <= i < |s| ==> IsHeaderChar(s[i])
    decreases |s|
  {
    hide ValueStep, IsHeaderChar, IsLength;
    if s != [] {
      OctetAccepts(v, lenient, s[0]);
      if ValueStep(v, lenient, s[0]).errno == OK {
        ScanAccepts(ValueStep(v, lenient, s[0]), lenient, s[1..]);
        assert forall i :: 0 < i < |s| ==> s[i] == s[1..][i - 1];
      }
    }
  }

  lemma OctetAccepts(v: ValueScan, lenient: bool, c: byte)
    requires v.errno == OK && !IsLength(v.m.h)
    ensures ValueStep(v, lenient, c).errno == OK <==> lenient || IsHeaderChar(c)
    ensures !IsLength(ValueStep(v, lenient, c).m.h)
  {
    hide IsHeaderChar, CodingOctet, OptionOctet, ConnectionFlag;
    if IsCoding(v.m.h) {
      CodingIsNoLength(v.m, c);
    } else if IsOption(v.m.h) {
      OptionIsNoLength(v.m, c);
    }
  }

  lemma CodingIsNoLength(m: Matcher, c: byte)
    requires IsCoding(m.h)
    ensures !IsLength(CodingOctet(m, c, Lower(c)).h)
  {
    hide Token;
  }

  lemma OptionIsNoLength(m: Matcher, c: byte)
    requires IsOption(m.h)
    ensures !IsLength(OptionOctet(m, c, Lower(c)).h)
  {
    hide Token;
  }

  lemma FirstIsNoLength(h: HeaderState, c: byte)
    requires !IsLength(h)
    ensures !IsLength(FirstValueState(h, c))
  {
  }

  /** What a value but that of a length must consist of. */
  lemma ValueExact(st: Parser, v: seq<byte>)
    requires st.errno == OK && !IsLength(st.headerState) && v != []
    ensures ValueAccepted(st, v) <==> st.lenient || forall i :: 0 < i < |v| ==> IsHeaderChar(v[i])
  {
    hide IsHeaderChar, ValueSteps, FirstValueState;
    FirstIsNoLength(st.headerState, Lower(v[0]));
    ScanAccepts(ValueOf(StartValue(st, v[0])), st.lenient, v[1..]);
    assert forall i :: 0 < i < |v| ==> v[i] == v[1..][i - 1];
    assert forall i :: 0 <= i < |v[1..]| ==> v[1..][i] == v[i + 1];
  }

  // ---------- folded lines ----------

  lemma ActFold(st: Parser, ch: byte)
    requires st.errno == OK && IsBlank(ch)
    ensures st.state == HeaderValueLws ==> Act(st, ch) == Effect(FoldLine(st), Nothing, Again)
    ensures st.state == HeaderValueStart && st.headerState != ContentLength ==>
      Act(st, ch) == Effect(StartValue(st, ch), Open(Value), Consume)
    ensures st.state == HeaderValueDiscardLws ==> Act(st, ch) == Goto(st, HeaderValueDiscardWs)
  {
    hide Lawful, Token, StartValue, FoldLine, ActStart, ActBody, ActChunkHeader, ActHeadersAlmostDone, ActHeadersDone,
         ActReqMethod, ActSpacesBeforeUrl, ActUrl, ActRequestProtocol, ActRequestVersion, ActResponseProtocol,
         ActResponseVersion, ActResponseStatus;
  }

  lemma FoldState(st: Parser)
    ensures FoldLine(st) == st.(state := HeaderValueStart, headerState := FoldLine(st).headerState)
    ensures st.headerState != ContentLength ==> FoldLine(st).headerState != ContentLength
    ensures forall n: nat :: FoldLine(st.(nread := n)) == FoldLine(st).(nread := n)
  {
  }

  lemma DispatchFold(m: Machine, ch: byte)
    requires m.st.errno == OK && m.st.state == HeaderValueLws && m.mark == Closed && IsBlank(ch) && !m.exited
    requires m.st.headerState != ContentLength
    ensures Dispatch(m, ch) == m.(st := StartValue(FoldLine(m.st), ch), mark := Opened(Value, []))
  {
    hide Act, Dispatch, StartValue, FoldLine;
    FoldState(m.st);
    ActFold(m.st, ch);
    DispatchOnce(m, ch, Act(m.st, ch));
    var d := m.(st := FoldLine(m.st));
    ActFold(d.st, ch);
    DispatchOnce(d, ch, Act(d.st, ch));
  }

  /** A first blank behind a value makes a further value of the line. */
  lemma StepFold(m: Machine, ch: byte)
    requires Alive(m) && m.st.state == HeaderValueLws && m.mark == Closed && IsBlank(ch) && m.st.nread < MAX_HEADER_SIZE
    requires m.st.headerState != ContentLength
    ensures ByteStep(m, ch) == Inside(m, StartValue(FoldLine(m.st), ch).(nread := m.st.nread + 1), [ch])
  {
    hide ByteStep, Dispatch, StartValue, FoldLine, Count, Advance;
    FoldCounted(m.st, ch);
    StepCounting(m, ch);
    DispatchFold(m.(st := Count(m.st)), ch);
    AdvanceOpen(m, StartValue(FoldLine(m.st), ch).(nread := m.st.nread + 1), [], ch);
  }

  lemma AdvanceOpen(m: Machine, st: Parser, b: seq<byte>, ch: byte)
    requires st.errno == OK
    ensures Advance(m.(st := st, mark := Opened(Value, b)), ch)
         == m.(st := st, mark := Opened(Value, b + [ch]), consumed := m.consumed + 1)
    ensures [] + [ch] == [ch]
  {
  }

  lemma FoldCounted(st: Parser, ch: byte)
    requires st.errno == OK && st.state == HeaderValueLws && st.nread < MAX_HEADER_SIZE
    ensures var c := Count(st);
      && c.errno == OK && c.state == HeaderValueLws && c.headerState == st.headerState
      && StartValue(FoldLine(c), ch) == StartValue(FoldLine(st), ch).(nread := st.nread + 1)
    ensures StartValue(FoldLine(st), ch).errno == OK
  {
    hide StartValue, FoldLine;
    CountHeader(st);
    FoldState(st);
    StartValueNread(FoldLine(st), ch, st.nread + 1);
  }

  /** A first blank behind an empty value: the value may still come. */
  lemma StepFoldEmpty(m: Machine, ch: byte)
    requires Alive(m) && m.st.state == HeaderValueDiscardLws && m.mark == Closed && IsBlank(ch) && m.st.nread < MAX_HEADER_SIZE
    ensures ByteStep(m, ch) == m.(st := m.st.(state := HeaderValueDiscardWs, nread := m.st.nread + 1),
      consumed := m.consumed + 1)
  {
    hide Act, ByteStep;
    CountHeader(m.st);
    ActFold(Count(m.st), ch);
    StepConsume(m, ch, Act(Count(m.st), ch));
  }

  /** The scan of a folded line. */
  function FoldScan(st: Parser, u: seq<byte>): ValueScan
    requires u != []
  {
    ValueSteps(ValueOf(StartValue(FoldLine(st), u[0])), st.lenient, u[1..])
  }

  predicate IsFold(u: seq<byte>) {
    u != [] && IsBlank(u[0]) && NoLineEnd(u)
  }

  /** The parser inside a folded line. */
  function FoldRead(st: Parser, u: seq<byte>, n: nat): Parser
    requires u != []
  {
    WithValue(StartValue(FoldLine(st), u[0]), FoldScan(st, u)).(nread := n)
  }

  /** The parser behind a folded line. */
  function FoldDone(m: Machine, u: seq<byte>, n: nat): Machine
    requires u != []
  {
    Past(m, FoldRead(m.st, u, m.st.nread + n).(state := HeaderValueLws), u, n)
  }

  lemma RunFoldOctets(m: Machine, u: seq<byte>)
    requires Alive(m) && m.st.state == HeaderValueLws && m.mark == Closed && IsFold(u) && m.st.headerState != ContentLength
    requires m.st.nread + |u| <= MAX_HEADER_SIZE
    ensures var r := Run(m, u);
      if FoldScan(m.st, u).errno == OK then
        r == Inside(m, FoldRead(m.st, u, m.st.nread + |u|), u)
      else r.st.errno != OK
  {
    hide ByteStep, ValueSteps, StartValue, FoldLine, ValueOf, WithValue, FoldRead, FoldScan, ValuedBy, Inside, Run;
    StepFold(m, u[0]);
    RunFirst(m, u);
    FoldGoesOn(m, StartValue(FoldLine(m.st), u[0]), u);
  }

  lemma RunFirst(m: Machine, u: seq<byte>)
    requires u != []
    ensures Run(m, u) == Run(ByteStep(m, u[0]), u[1..])
  {
    hide ByteStep;
  }

  lemma FoldGoesOn(m: Machine, st: Parser, u: seq<byte>)
    requires Alive(m) && IsFold(u) && st == StartValue(FoldLine(m.st), u[0]) && m.st.nread + |u| <= MAX_HEADER_SIZE
    ensures var r := Run(Inside(m, st.(nread := m.st.nread + 1), [u[0]]), u[1..]);
      if FoldScan(m.st, u).errno == OK then
        r == Inside(m, FoldRead(m.st, u, m.st.nread + |u|), u)
      else r.st.errno != OK
  {
    hide ValueSteps, StartValue, FoldLine, ValueOf, WithValue, FoldRead, FoldScan, ValuedBy, Inside, Run;
    FoldKeeps(m.st, u[0]);
    FoldedBy(m.st, st, u);
    RunValueOn(m, st.(nread := m.st.nread + 1), [u[0]], u[1..]);
    assert [u[0]] + u[1..] == u;
  }

  lemma RunValueOn(m: Machine, st: Parser, b: seq<byte>, s: seq<byte>)
    requires !m.exited && st.errno == OK && st.state == HeaderValue && NoLineEnd(s) && st.nread + |s| <= MAX_HEADER_SIZE
    ensures if ValueSteps(ValueOf(st), st.lenient, s).errno == OK then Run(Inside(m, st, b), s) == Inside(m, ValuedBy(st, s), b + s)
            else Run(Inside(m, st, b), s).st.errno != OK
  {
    hide ByteStep, ValueSteps, ValueOf, ValuedBy;
    if ValueSteps(ValueOf(st), st.lenient, s).errno == OK {
      RunValue(Inside(m, st, b), s);
    } else {
      RunValueFails(Inside(m, st, b), s);
    }
  }

  lemma FoldedBy(was: Parser, st: Parser, u: seq<byte>)
    requires u != [] && st == StartValue(FoldLine(was), u[0]) && st.lenient == was.lenient
    ensures var c := st.(nread := was.nread + 1);
      && ValuedBy(c, u[1..]) == FoldRead(was, u, was.nread + |u|)
      && FoldScan(was, u) == ValueSteps(ValueOf(c), c.lenient, u[1..])
  {
    hide ValueSteps, StartValue, FoldLine, WithValue;
    ValueOfNread(st, was.nread + 1);
    WithValueNread(st, FoldScan(was, u), was.nread + 1);
  }

  lemma FoldKeeps(st: Parser, ch: byte)
    ensures var r := StartValue(FoldLine(st), ch); r.errno == st.errno && r.state == HeaderValue && r.lenient == st.lenient
  {
    hide FirstValueState;
  }

  /** A folded line is delivered as a value of its own, its blank included. */
  lemma RunFold(m: Machine, u: seq<byte>, bare: bool)
    requires Alive(m) && m.st.state == HeaderValueLws && m.mark == Closed && IsFold(u) && m.st.headerState != ContentLength
    requires m.st.nread + |u| + |LineEnd(bare)| <= MAX_HEADER_SIZE
    ensures var r := Run(m, u + LineEnd(bare));
      if FoldScan(m.st, u).errno == OK then r == FoldDone(m, u, |u| + |LineEnd(bare)|) else r.st.errno != OK
  {
    hide ByteStep, Run, FoldRead, FoldScan, IsFold, FoldDone;
    NotEmpty(u);
    RunConcat(m, u, LineEnd(bare));
    RunFoldOctets(m, u);
    var r := Run(m, u);
    if FoldScan(m.st, u).errno != OK {
      AliveOrNot(r);
      RunStopped(r, LineEnd(bare));
    } else {
      FoldEnds(m, u, bare);
    }
  }

  lemma FoldEnds(m: Machine, u: seq<byte>, bare: bool)
    requires Alive(m) && m.mark == Closed && u != [] && FoldScan(m.st, u).errno == OK
    requires m.st.nread + |u| + |LineEnd(bare)| <= MAX_HEADER_SIZE
    ensures Run(Inside(m, FoldRead(m.st, u, m.st.nread + |u|), u), LineEnd(bare)) == FoldDone(m, u, |u| + |LineEnd(bare)|)
  {
    hide ByteStep, Run, FoldRead, FoldScan, Inside, Past;
    var st := FoldRead(m.st, u, m.st.nread + |u|);
    FoldReadFacts(m.st, u, m.st.nread + |u|);
    FoldReadFacts(m.st, u, m.st.nread + |u| + |LineEnd(bare)|);
    if bare {
      BareEnds(m, st, u);
      RunOne(Inside(m, st, u), LF);
    } else {
      CrlfEnds(m, st, u);
    }
  }

  lemma CrlfEnds(m: Machine, st: Parser, v: seq<byte>)
    requires !m.exited && m.mark == Closed && st.errno == OK && st.state == HeaderValue
    requires st.nread + 2 <= MAX_HEADER_SIZE && v != []
    ensures Run(Inside(m, st, v), CRLF) == Past(m, st.(state := HeaderValueLws, nread := st.nread + 2), v, |v| + 2)
  {
    hide ByteStep, Run;
    RunValueEnd(Inside(m, st, v));
  }

  lemma NotEmpty(u: seq<byte>)
    requires IsFold(u)
    ensures u != []
  {
  }

  lemma FoldReadFacts(st: Parser, u: seq<byte>, n: nat)
    requires u != []
    ensures var r := FoldRead(st, u, n);
      r.state == HeaderValue && r.errno == FoldScan(st, u).errno && r == FoldRead(st, u, 0).(nread := n)
  {
    hide FirstValueState, ValueSteps;
  }

  lemma {:induction false} GeneralStays(v: ValueScan, lenient: bool, s: seq<byte>)
    requires v.errno == OK && v.m.h == General && ValueSteps(v, lenient, s).errno == OK
    ensures ValueSteps(v, lenient, s).m.h == General && ValueSteps(v, lenient, s).flags == v.flags
    decreases |s|
  {
    if s != [] {
      GeneralStays(ValueStep(v, lenient, s[0]), lenient, s[1..]);
    }
  }

  /** A value was being looked at, and not in front of an element of a list. */
  predicate Forgetful(h: HeaderState) {
    h.General? || (IsCoding(h) && !h.TeTokenStart?) || (IsOption(h) && !h.ConnTokenStart?)
  }

  /** A folded line makes the parser forget the option or the coding that the value ended with: whatever the folded line holds,
      no flag is raised for it. */
  lemma FoldForgets(m: Machine, u: seq<byte>, bare: bool)
    requires Alive(m) && m.st.state == HeaderValueLws && m.mark == Closed && IsFold(u)
    requires m.st.nread + |u| + |LineEnd(bare)| <= MAX_HEADER_SIZE
    requires Forgetful(m.st.headerState)
    ensures var r := Run(m, u + LineEnd(bare)); r.st.errno == OK ==> NextLine(r).st.flags == m.st.flags
  {
    hide Run, IsFold, LineEnd, FoldScan, FoldDone, NextLine;
    NotEmpty(u);
    RunFold(m, u, bare);
    if FoldScan(m.st, u).errno == OK {
      DoneForgets(m, u, |u| + |LineEnd(bare)|);
    }
  }

  lemma DoneForgets(m: Machine, u: seq<byte>, n: nat)
    requires m.st.errno == OK && u != [] && Forgetful(m.st.headerState)
    requires FoldScan(m.st, u).errno == OK
    ensures NextLine(FoldDone(m, u, n)).st.flags == m.st.flags
  {
    hide FoldScan, FinishHeader, FoldRead, Past, NextLine;
    ScanForgets(m.st, u, m.st.nread + n);
    NextFinishes(m, FoldRead(m.st, u, m.st.nread + n).(state := HeaderValueLws), u, n);
  }

  lemma NextFinishes(m: Machine, st: Parser, v: seq<byte>, n: nat)
    requires st.state == HeaderValueLws
    ensures NextLine(Past(m, st, v, n)).st == FinishHeader(st)
  {
    hide FinishHeader;
  }

  lemma ScanForgets(st: Parser, u: seq<byte>, n: nat)
    requires st.errno == OK && u != [] && Forgetful(st.headerState)
    requires FoldScan(st, u).errno == OK
    ensures FinishHeader(FoldRead(st, u, n).(state := HeaderValueLws)).flags == st.flags
  {
    hide ValueSteps, StartValue, FoldLine, FoldRead;
    FoldGeneral(st, u[0]);
    GeneralStays(ValueOf(StartValue(FoldLine(st), u[0])), st.lenient, u[1..]);
    FoldReadFlags(st, u, n);
    FinishGeneral(FoldRead(st, u, n).(state := HeaderValueLws));
  }

  lemma FoldReadFlags(st: Parser, u: seq<byte>, n: nat)
    requires u != []
    ensures var r := FoldRead(st, u, n); r.headerState == FoldScan(st, u).m.h && r.flags == FoldScan(st, u).flags
  {
    hide ValueSteps, StartValue, FoldLine;
  }

  lemma FinishGeneral(st: Parser)
    requires st.headerState == General
    ensures FinishHeader(st).flags == st.flags
  {
  }

  lemma FoldGeneral(st: Parser, ch: byte)
    requires st.errno == OK && Forgetful(st.headerState)
    ensures var v := ValueOf(StartValue(FoldLine(st), ch)); v.m.h == General && v.flags == st.flags && v.errno == OK
  {
    hide Lower;
  }

  /** In front of an element of a list the search goes on behind the blank as if the line had not been folded. */
  lemma FoldContinues(st: Parser, u: seq<byte>)
    requires st.errno == OK && (st.headerState == TeTokenStart || st.headerState == ConnTokenStart) && IsFold(u)
    ensures FoldScan(st, u) == ValueSteps(ValueOf(st.(index := 0)), st.lenient, u[1..])
  {
    hide ValueSteps, Lower;
  }

  /** Inside a Content-Length, a folded line may hold only spaces behind its first octet; the length stays. */
  lemma FoldedLength(st: Parser, u: seq<byte>)
    requires st.errno == OK && (st.headerState == ContentLengthNum || st.headerState == ContentLengthWs) && IsFold(u)
    ensures var v := FoldScan(st, u);
      && (v.errno == OK <==> forall i :: 0 < i < |u| ==> u[i] == SP)
      && (v.errno == OK ==> v.length == st.contentLength && v.flags == st.flags && v.m.h == ContentLengthWs)
  {
    hide ValueSteps, StartValue, FoldLine;
    StartsLength(st, u[0]);
    LengthWaits(ValueOf(StartValue(FoldLine(st), u[0])), st.lenient, u[1..]);
    assert forall i :: 0 < i < |u| ==> u[i] == u[1..][i - 1];
    assert forall i :: 0 <= i < |u[1..]| ==> u[1..][i] == u[i + 1];
  }

  lemma StartsLength(st: Parser, ch: byte)
    requires st.headerState == ContentLengthNum || st.headerState == ContentLengthWs
    ensures var v := ValueOf(StartValue(FoldLine(st), ch));
      v.errno == st.errno && v.m.h == ContentLengthWs && v.length == st.contentLength && v.flags == st.flags
  {
    hide Lower;
  }

  lemma {:induction false} LengthWaits(v: ValueScan, lenient: bool, s: seq<byte>)
    requires v.errno == OK && v.m.h == ContentLengthWs
    ensures var w := ValueSteps(v, lenient, s);
      && (w.errno == OK <==> forall i :: 0 <= i < |s| ==> s[i] == SP)
      && (w.errno == OK ==> w == v)
    decreases |s|
  {
    if s != [] && ValueStep(v, lenient, s[0]).errno == OK {
      LengthWaits(ValueStep(v, lenient, s[0]), lenient, s[1..]);
      assert forall i :: 0 < i < |s| ==> s[i] == s[1..][i - 1];
      assert forall i :: 0 <= i < |s[1..]| ==> s[1..][i] == s[i + 1];
    }
  }

  /** A coding that was found is lost in this way: without the folded line the body would come in chunks. */
  lemma FoldLosesChunked(m: Machine, bare: bool)
    requires Alive(m) && m.st.state == HeaderValueLws && m.mark == Closed && m.st.headerState == TeChunked
    requires !m.st.flags.chunked && m.st.nread + 3 <= MAX_HEADER_SIZE
    ensures NextLine(m).st.flags.chunked
    ensures var r := Run(m, [SP] + LineEnd(bare)); r.st.errno == OK && !NextLine(r).st.flags.chunked
  {
    hide Run, NextLine, FoldScan, FoldDone, LineEnd;
    LineEndSize(bare);
    assert IsFold([SP]);
    BlankScans(m.st);
    RunFold(m, [SP], bare);
    FoldForgets(m, [SP], bare);
    NextLineChunked(m);
  }

  lemma BlankScans(st: Parser)
    requires st.errno == OK
    ensures FoldScan(st, [SP]).errno == OK
    ensures forall m: Machine, n: nat :: m.st == st ==> FoldDone(m, [SP], n).st.errno == OK
  {
    hide FirstValueState;
    assert [SP][1..] == [];
  }

  lemma NextLineChunked(m: Machine)
    requires m.st.state == HeaderValueLws && m.st.headerState == TeChunked
    ensures NextLine(m).st.flags.chunked
  {
  }
}
