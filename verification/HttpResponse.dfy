/** HttpResponse::dump, and the parser that has to undo it. */
module HttpResponse {
  import opened Bytes
  import opened HttpTypes
  import opened HttpAct
  import opened HttpMachine
  import opened HttpInvariant
  import opened HttpRuns
  import opened HttpNames
  import opened HttpLines
  import opened HttpLength
  import opened HttpLists
  import opened HttpOptions
  import opened HttpTransfer

  // ---------- the printer ----------

  datatype Header = Header(name: seq<byte>, value: seq<byte>)

  function Line(h: Header): seq<byte> {
    h.name + COLON_SP + (h.value + CRLF)
  }

  function Lines(hs: seq<Header>): seq<byte> {
    if hs == [] then [] else Line(hs[0]) + Lines(hs[1..])
  }

  const LENGTH_HEADER: seq<byte> := Ascii("Content-Length")

  /** The header that dump adds. */
  function LengthHeader(body: seq<byte>): Header {
    Header(LENGTH_HEADER, PrintInt(AsInt(|body|)))
  }

  function DumpText(prefix: seq<byte>, headers: seq<Header>, body: seq<byte>): seq<byte> {
    prefix + Lines(headers) + Line(LengthHeader(body)) + CRLF + body
  }

  lemma {:induction false} LinesSnoc(hs: seq<Header>, h: Header)
    ensures Lines(hs + [h]) == Lines(hs) + Line(h)
  {
    hide Line;
    if hs == [] {
      assert hs + [h] == [h] && [h][1..] == [];
    } else {
      assert (hs + [h])[0] == hs[0] && (hs + [h])[1..] == hs[1..] + [h];
      LinesSnoc(hs[1..], h);
      assert Line(hs[0]) + (Lines(hs[1..]) + Line(h)) == Line(hs[0]) + Lines(hs[1..]) + Line(h);
    }
  }

  class HttpResponse {
    /** The header map, in the order in which iteration visits it. */
    var headers: seq<Header>
    var body: seq<byte>

    constructor (headers: seq<Header>, body: seq<byte>)
      ensures this.headers == headers && this.body == body
    {
      this.headers, this.body := headers, body;
    }

    /** HttpResponse::dump */
    method Dump(prefix: seq<byte>) returns (result: seq<byte>)
      ensures result == DumpText(prefix, headers, body)
    {
      result := prefix;
      var i := 0;
      while i < |headers|
        invariant 0 <= i <= |headers| && result == prefix + Lines(headers[..i])
      {
        var it := headers[i];
        result := result + (it.name + COLON_SP + (it.value + CRLF));
        LinesSnoc(headers[..i], it);
        assert headers[..i + 1] == headers[..i] + [it];
        i := i + 1;
      }
      assert headers[..i] == headers;
      result := result + (LENGTH_HEADER + COLON_SP + (PrintInt(AsInt(|body|)) + CRLF));
      result := result + CRLF;
      result := result + body;
    }
  }

  // ---------- between two header lines ----------

  /** The states in which a new line may start: at the first header, or with the previous line's
      flags still to be raised. */
  predicate AtLine(m: Machine) {
    && Alive(m) && m.mark == Closed
    && (m.st.state == HeaderFieldStart || m.st.state == HeaderValueLws || m.st.state == HeaderValueDiscardLws)
  }

  /** An empty Content-Length, which the next octet rejects. */
  predicate Refused(m: Machine) {
    m.st.state == HeaderValueDiscardLws && m.st.headerState == ContentLength
  }

  /** The machine as the first octet of the next line finds it, once it has finished the old line. */
  function NextLine(m: Machine): Machine {
    if m.st.state == HeaderValueLws then m.(st := FinishHeader(m.st))
    else if m.st.state == HeaderValueDiscardLws then m.(st := FinishHeader(m.st), log := m.log + [Data(Value, [])])
    else m
  }

  lemma ActLineStart(st: Parser, ch: byte)
    requires st.errno == OK && ch != SP && ch != HT
    ensures st.state == HeaderValueLws ==> Act(st, ch) == Effect(FinishHeader(st), Nothing, Again)
    ensures st.state == HeaderValueDiscardLws && st.headerState != ContentLength ==>
      Act(st, ch) == Effect(FinishHeader(st), Instant(Value), Again)
    ensures st.state == HeaderValueDiscardLws && st.headerState == ContentLength ==>
      Act(st, ch) == Fail(st, INVALID_CONTENT_LENGTH)
  {
    hide Lawful, FinishHeader;
  }

  lemma FinishNread(st: Parser, n: nat)
    ensures FinishHeader(st.(nread := n)) == FinishHeader(st).(nread := n)
    ensures FinishHeader(st).nread == st.nread && FinishHeader(st).errno == st.errno
    ensures FinishHeader(st).state == HeaderFieldStart
  {
    hide ConnectionFlag;
  }

  lemma DispatchLineStart(m: Machine, ch: byte)
    requires AtLine(m) && !Refused(m) && ch != SP && ch != HT
    ensures Dispatch(m, ch) == Dispatch(NextLine(m), ch)
  {
    hide Act, FinishHeader, Dispatch;
    ActLineStart(m.st, ch);
    DispatchOnce(m, ch, Act(m.st, ch));
  }

  lemma NextLineNread(m: Machine, n: nat)
    ensures NextLine(m.(st := m.st.(nread := n))) == NextLine(m).(st := NextLine(m).st.(nread := n))
    ensures NextLine(m).st.nread == m.st.nread && NextLine(m).st.errno == m.st.errno && NextLine(m).exited == m.exited
  {
    hide FinishHeader;
    FinishNread(m.st, n);
  }

  lemma CountNextLine(m: Machine)
    requires AtLine(m) && m.st.nread < MAX_HEADER_SIZE
    ensures Count(m.st).errno == OK && Count(NextLine(m).st).errno == OK && Alive(NextLine(m))
    ensures NextLine(m.(st := Count(m.st))) == NextLine(m).(st := Count(NextLine(m).st))
  {
    hide FinishHeader, ParsingHeader, NextLine, Count, AtLine;
    LinesAreHeaders(m);
    NextLineNread(m, m.st.nread + 1);
    CountHeader(m.st);
    CountHeader(NextLine(m).st);
  }

  lemma LinesAreHeaders(m: Machine)
    requires AtLine(m)
    ensures ParsingHeader(m.st.state) && ParsingHeader(NextLine(m).st.state) && Alive(m)
  {
  }

  lemma StepRefused(m: Machine, ch: byte)
    requires AtLine(m) && Refused(m) && ch != SP && ch != HT
    ensures ByteStep(m, ch).st.errno != OK
  {
    hide Act, Dispatch, FinishHeader, Lawful;
    if Count(m.st).errno == OK {
      ActLineStart(Count(m.st), ch);
      DispatchOnce(m.(st := Count(m.st)), ch, Act(Count(m.st), ch));
    }
  }

  /** The first octet of a line meets the finished previous line. */
  lemma StepLine(m: Machine, ch: byte)
    requires AtLine(m) && !Refused(m) && ch != SP && ch != HT && m.st.nread < MAX_HEADER_SIZE
    ensures ByteStep(m, ch) == ByteStep(NextLine(m), ch)
  {
    hide Act, FinishHeader, Dispatch, Advance, Count, NextLine;
    CountNextLine(m);
    var c := m.(st := Count(m.st));
    assert AtLine(c) && !Refused(c) by { CountKeepsLine(m); }
    DispatchLineStart(c, ch);
  }

  lemma CountKeepsLine(m: Machine)
    requires AtLine(m) && Count(m.st).errno == OK
    ensures AtLine(m.(st := Count(m.st))) && Refused(m.(st := Count(m.st))) == Refused(m)
  {
  }

  lemma RunFromLine(m: Machine, s: seq<byte>)
    requires AtLine(m) && s != [] && s[0] != SP && s[0] != HT && (!Refused(m) ==> m.st.nread < MAX_HEADER_SIZE)
    ensures if Refused(m) then Run(m, s).st.errno != OK else Run(m, s) == Run(NextLine(m), s)
  {
    hide ByteStep, NextLine, Refused;
    if !Refused(m) {
      StepLine(m, s[0]);
    } else {
      StepRefused(m, s[0]);
      RunStopped(ByteStep(m, s[0]), s[1..]);
    }
  }

  // ---------- what one line changes ----------

  /** A header as RFC 7230 allows it: a token, and a value without leading white space or line ends. */
  predicate IsHeaderText(h: Header) {
    h.name != [] && AllTokens(h.name) && IsValueText(h.value)
  }

  /** The fields that no header line touches are equal. */
  predicate SameMessage(a: Parser, b: Parser) {
    && b == a.(state := b.state, headerState := b.headerState, index := b.index, nread := b.nread,
               usesTransferEncoding := b.usesTransferEncoding, flags := b.flags, contentLength := b.contentLength)
    && a.flags.trailing == b.flags.trailing && a.flags.skipBody == b.flags.skipBody
  }

  lemma SameSelf(a: Parser)
    ensures SameMessage(a, a)
  {
  }

  lemma SameThrough(a: Parser, b: Parser, c: Parser)
    requires SameMessage(a, b) && SameMessage(b, c)
    ensures SameMessage(a, c) && c.errno == a.errno && b.errno == a.errno
  {
  }

  lemma {:induction false} NameStatesKept(n: NameScan, s: seq<byte>)
    requires IsNameState(n.m.h)
    ensures IsNameState(NameSteps(n, s).m.h)
    decreases |s|
  {
    hide Token;
    if s != [] {
      NameStatesKept(NameStep(n, s[0]), s[1..]);
    }
  }

  lemma NameReadFacts(st: Parser, name: seq<byte>)
    requires name != [] && AllTokens(name)
    ensures var r := NameRead(st, name);
      && SameMessage(st, r) && r.errno == st.errno && r.flags == st.flags && r.contentLength == st.contentLength
      && IsNameState(r.headerState)
      && (r.headerState == ContentLength <==> IsLengthName(name))
      && (r.headerState == TransferEncoding <==> IsEncodingName(name))
      && (r.headerState == HeaderState.Connection <==> IsConnectionName(name))
      && (r.headerState == HeaderState.Upgrade <==> IsUpgradeName(name))
      && (r.usesTransferEncoding <==> st.usesTransferEncoding || StartsLikeEncoding(name))
  {
    hide Token, NameSteps, Spells;
    NameRecognised(name, st.usesTransferEncoding);
    ConnectionRecognised(name, st.usesTransferEncoding);
    UpgradeRecognised(name, st.usesTransferEncoding);
    NameStatesKept(NameScan(Matcher(FirstHeaderState(Token(name[0])), 0), st.usesTransferEncoding), name[1..]);
    assert name[..|name|] == name;
  }

  /** The flags that a header value cannot change. */
  predicate FlagsKept(f: Flags, g: Flags) {
    f.chunked == g.chunked && f.trailing == g.trailing && f.skipBody == g.skipBody && f.contentLength == g.contentLength
    && f.upgrade == g.upgrade
  }

  lemma ConnectionFlagKept(f: Flags, h: HeaderState)
    ensures FlagsKept(f, ConnectionFlag(f, h))
  {
  }

  lemma ValueStepFlags(v: ValueScan, lenient: bool, c: byte)
    ensures FlagsKept(v.flags, ValueStep(v, lenient, c).flags)
  {
    hide ConnectionFlag, IsHeaderChar, CodingOctet, OptionOctet, LengthOctet, IsLength, IsCoding, IsOption;
    ConnectionFlagKept(v.flags, v.m.h);
    LengthFacts(v, c);
  }

  lemma ValueStepKind(v: ValueScan, lenient: bool, c: byte)
    requires v.errno == OK
    ensures var w := ValueStep(v, lenient, c);
      && (!IsLength(v.m.h) ==> !IsLength(w.m.h) && w.length == v.length && (IsHeaderChar(c) ==> w.errno == OK))
      && (!IsCoding(v.m.h) ==> !IsCoding(w.m.h))
      && (!IsOption(v.m.h) ==> !IsOption(w.m.h) && w.flags == v.flags)
  {
    hide ConnectionFlag, IsHeaderChar, CodingOctet, OptionOctet, LengthOctet;
    if IsLength(v.m.h) {
      LengthFacts(v, c);
    } else if IsCoding(v.m.h) {
      CodingFacts(v.m, c);
    } else if IsOption(v.m.h) {
      OptionFacts(v.m, c);
    }
  }

  lemma OptionFacts(m: Matcher, c: byte)
    requires IsOption(m.h)
    ensures !IsCoding(OptionOctet(m, c, Lower(c)).h) && !IsLength(OptionOctet(m, c, Lower(c)).h)
  {
    hide Token;
  }

  lemma CodingFacts(m: Matcher, c: byte)
    requires IsCoding(m.h)
    ensures !IsLength(CodingOctet(m, c, Lower(c)).h) && !IsOption(CodingOctet(m, c, Lower(c)).h)
  {
    hide Token;
  }

  lemma LengthFacts(v: ValueScan, c: byte)
    ensures LengthOctet(v, c).flags == v.flags
    ensures IsLength(LengthOctet(v, c).m.h) && !IsCoding(LengthOctet(v, c).m.h) && !IsOption(LengthOctet(v, c).m.h)
  {
  }

  lemma {:induction false} ValueStepsFacts(v: ValueScan, lenient: bool, s: seq<byte>)
    requires v.errno == OK
    ensures var w := ValueSteps(v, lenient, s);
      && FlagsKept(v.flags, w.flags)
      && (!IsLength(v.m.h) ==> !IsLength(w.m.h) && w.length == v.length)
      && (!IsLength(v.m.h) && (forall i :: 0 <= i < |s| ==> IsHeaderChar(s[i])) ==> w.errno == OK)
      && (!IsCoding(v.m.h) ==> !IsCoding(w.m.h))
      && (!IsOption(v.m.h) ==> !IsOption(w.m.h) && w.flags == v.flags)
    decreases |s|
  {
    hide ValueStep, IsHeaderChar, IsCoding, IsLength, IsOption;
    if s != [] {
      ValueStepFlags(v, lenient, s[0]);
      ValueStepKind(v, lenient, s[0]);
      if ValueStep(v, lenient, s[0]).errno == OK {
        ValueStepsFacts(ValueStep(v, lenient, s[0]), lenient, s[1..]);
      }
    }
  }

  lemma StartValueFacts(st: Parser, c: byte)
    requires IsNameState(st.headerState)
    ensures var r := StartValue(st, c);
      && SameMessage(st, r) && r.usesTransferEncoding == st.usesTransferEncoding
      && (st.headerState != ContentLength ==>
            !IsLength(r.headerState) && r.contentLength == st.contentLength && r.flags.contentLength == st.flags.contentLength)
      && (st.headerState == ContentLength ==> r.flags.contentLength)
      && r.flags == st.flags.(upgrade := st.flags.upgrade || st.headerState.Upgrade?, contentLength := r.flags.contentLength)
  {
    hide FirstValueState, Lower;
    StartValueState(st.headerState, Lower(c));
  }

  lemma StartValueState(h: HeaderState, c: byte)
    requires IsNameState(h)
    ensures var r := FirstValueState(h, c);
      && (h != ContentLength ==> !IsLength(r))
      && (if h == TransferEncoding then CodingScanned(r) && !r.TeChunked? else !IsCoding(r))
      && (if h == HeaderState.Connection then Scanning(r) else !IsOption(r))
  {
  }

  /** What a value does to the parser, seen from the state in which its name has been read. */
  predicate ValueEffect(st: Parser, v: seq<byte>, r: Parser) {
    && SameMessage(st, r) && r.usesTransferEncoding == st.usesTransferEncoding
    && (st.headerState != ContentLength ==>
          r.contentLength == st.contentLength && r.flags.contentLength == st.flags.contentLength)
    && (st.headerState == ContentLength && v != [] ==> r.flags.contentLength)
    && (r.flags.upgrade <==> st.flags.upgrade || (st.headerState.Upgrade? && v != []))
  }

  /** A value raises the flag of an option, at a comma or when its header is finished, as the option matcher says. */
  predicate OptionEffect(opt: ConnOption, st: Parser, v: seq<byte>, r: Parser) {
    FlagOf(opt, ConnectionFlag(r.flags, r.headerState)) <==>
      FlagOf(opt, st.flags) || (st.headerState == HeaderState.Connection && Raises(opt, v))
  }

  lemma ScannedOption(opt: ConnOption, st: Parser, v: seq<byte>)
    requires st.errno == OK && IsNameState(st.headerState) && v != [] && ValueScanned(st, v).errno == OK
    ensures var w := ValueScanned(st, v);
      FlagOf(opt, ConnectionFlag(w.flags, w.m.h)) <==>
        FlagOf(opt, st.flags) || (st.headerState == HeaderState.Connection && Raises(opt, v))
  {
    hide StartValue, ValueSteps, OptionSteps, Lower, IsOption, IsCoding, IsLength, IsNameState, Scanning, CodingScanned,
         FlagOf, AtEnd, ConnectionFlag, SameMessage, FlagsKept, FirstValueState, IsHeaderChar, ValueOf;
    var w := ValueOf(StartValue(st, v[0]));
    StartValueFacts(st, v[0]);
    StartValueState(st.headerState, Lower(v[0]));
    StartedValue(st, v[0]);
    FlagStarts(opt, st.flags, w.flags);
    if st.headerState == HeaderState.Connection {
      OptionFold(opt, w, st.lenient, v[1..]);
      HitStands(opt, OptionScan(w.m, FlagOf(opt, w.flags)), v[1..]);
      FlagAtEnd(opt, ValueScanned(st, v).flags, ValueScanned(st, v).m.h);
    } else {
      ValueStepsFacts(w, st.lenient, v[1..]);
      NoOptionFlag(ValueScanned(st, v).flags, ValueScanned(st, v).m.h);
    }
  }

  lemma ValueReadOption(opt: ConnOption, st: Parser, v: seq<byte>)
    requires st.errno == OK && IsNameState(st.headerState) && ValueAccepted(st, v)
    ensures OptionEffect(opt, st, v, ValueRead(st, v))
  {
    hide StartValue, ValueScanned, OptionSteps, IsOption, FlagOf, AtEnd, ConnectionFlag, StartAccepted;
    if v == [] {
      NameNoOption(st.headerState);
    } else {
      ScannedOption(opt, st, v);
    }
  }

  lemma StartedValue(st: Parser, c: byte)
    ensures var w := ValueOf(StartValue(st, c));
      w.m == Matcher(FirstValueState(st.headerState, Lower(c)), 0) && w.errno == st.errno && w.flags == StartValue(st, c).flags
  {
    hide FirstValueState, Lower;
  }

  /** The flag of an option is not one that the beginning of a value raises. */
  lemma FlagStarts(opt: ConnOption, f: Flags, g: Flags)
    requires g == f.(upgrade := g.upgrade, contentLength := g.contentLength)
    ensures FlagOf(opt, f) <==> FlagOf(opt, g)
  {
  }

  lemma NameNoOption(h: HeaderState)
    requires IsNameState(h)
    ensures !IsOption(h) && forall f: Flags :: ConnectionFlag(f, h) == f
  {
  }

  lemma NoOptionFlag(f: Flags, h: HeaderState)
    ensures !IsOption(h) ==> ConnectionFlag(f, h) == f
  {
  }

  /** A value ends at "chunked" as the coding matcher says. */
  predicate CodingEffect(st: Parser, v: seq<byte>, r: Parser) {
    r.flags.chunked || r.headerState.TeChunked? <==>
      st.flags.chunked || (st.headerState == TransferEncoding && ChunkedSeen(v))
  }

  lemma ScannedCoding(st: Parser, v: seq<byte>)
    requires st.errno == OK && IsNameState(st.headerState) && v != [] && ValueScanned(st, v).errno == OK
    ensures var w := ValueScanned(st, v);
      w.flags.chunked == st.flags.chunked && (w.m.h.TeChunked? <==> st.headerState == TransferEncoding && ChunkedSeen(v))
  {
    hide StartValue, ValueSteps, CodingSteps, Lower, IsOption, IsLength, IsNameState, Scanning, CodingScanned,
         ConnectionFlag, SameMessage, FirstValueState, IsHeaderChar, ValueOf;
    var w := ValueOf(StartValue(st, v[0]));
    StartValueFacts(st, v[0]);
    StartValueState(st.headerState, Lower(v[0]));
    StartedValue(st, v[0]);
    ValueStepsFacts(w, st.lenient, v[1..]);
    if st.headerState == TransferEncoding {
      CodingFold(w, st.lenient, v[1..]);
    }
  }

  lemma ValueReadCoding(st: Parser, v: seq<byte>)
    requires st.errno == OK && IsNameState(st.headerState) && ValueAccepted(st, v)
    ensures CodingEffect(st, v, ValueRead(st, v))
  {
    hide StartValue, ValueScanned, CodingSteps, StartAccepted;
    if v != [] {
      ScannedCoding(st, v);
    }
  }

  lemma ValueReadFacts(st: Parser, v: seq<byte>)
    requires st.errno == OK && IsNameState(st.headerState) && IsValueText(v)
    ensures st.headerState != ContentLength ==> ValueAccepted(st, v)
    ensures ValueAccepted(st, v) ==> ValueEffect(st, v, ValueRead(st, v))
  {
    hide IsHeaderChar, StartValue, ValueSteps;
    if v != [] {
      StartValueFacts(st, v[0]);
      ValueStepsFacts(ValueOf(StartValue(st, v[0])), st.lenient, v[1..]);
    }
  }

  lemma FinishFacts(st: Parser)
    ensures var r := FinishHeader(st);
      && SameMessage(st, r) && r.usesTransferEncoding == st.usesTransferEncoding && r.contentLength == st.contentLength
      && r.flags.contentLength == st.flags.contentLength && r.flags.upgrade == st.flags.upgrade
      && (r.flags.chunked <==> st.flags.chunked || st.headerState.TeChunked?)
  {
    hide ConnectionFlag;
    ConnectionFlagKept(st.flags, st.headerState);
  }

  lemma FinishOption(opt: ConnOption, st: Parser)
    ensures FlagOf(opt, FinishHeader(st).flags) <==> FlagOf(opt, ConnectionFlag(st.flags, st.headerState))
  {
    hide AtEnd;
    FlagAtEnd(opt, st.flags, st.headerState);
    NotAtEnd(opt);
  }

  lemma NotAtEnd(opt: ConnOption)
    ensures !AtEnd(opt, TeChunked)
  {
  }

  // ---------- the length ----------

  /** A Content-Length is accepted exactly if none was before and it declares a length, and then that length is recorded. */
  lemma LengthAccepted(a: Parser, v: seq<byte>)
    requires a.errno == OK && a.headerState == ContentLength && v != []
    ensures ValueAccepted(a, v) <==> !a.flags.contentLength && LengthOf(v).Some?
    ensures ValueAccepted(a, v) ==> ValueScanned(a, v).length == LengthOf(v).value && !ValueScanned(a, v).m.h.ContentLength?
  {
    hide ValueSteps, IsNum, LengthFrom, Lower;
    if IsNum(v[0]) {
      LengthStarted(a, v[0]);
      LengthSteps(ValueOf(StartValue(a, v[0])), a.lenient, v[1..]);
    }
  }

  lemma LengthStarted(a: Parser, c: byte)
    requires a.errno == OK && a.headerState == ContentLength && IsNum(c)
    ensures var w := ValueOf(StartValue(a, c)); w.m.h == ContentLengthNum && w.errno == OK && w.length == c - '0' as int
  {
    hide Lower;
  }

  /** The length before and after a line. */
  predicate LengthEffect(a: Parser, h: Header, b: Parser) {
    if IsLengthName(h.name) then
      !a.flags.contentLength && LengthOf(h.value) == Some(b.contentLength) && b.flags.contentLength
    else b.contentLength == a.contentLength && b.flags.contentLength == a.flags.contentLength
  }

  /** A line that, being a Content-Length, declares a length, and the first one. */
  predicate LengthOk(h: Header, had: bool) {
    IsLengthName(h.name) ==> !had && LengthOf(h.value).Some?
  }

  /** The value is accepted, or, if it is an empty Content-Length, will be refused by the next octet. */
  lemma LineLength(st: Parser, h: Header, a: Parser, b: Parser)
    requires st.errno == OK && IsHeaderText(h) && a == NameRead(st, h.name) && b == ValueRead(a, h.value)
    ensures !ValueAccepted(a, h.value) ==> !LengthOk(h, st.flags.contentLength)
    ensures ValueAccepted(a, h.value) && (h.value != [] || !IsLengthName(h.name)) ==>
      LengthOk(h, st.flags.contentLength) && LengthEffect(st, h, FinishHeader(b)) && (b.headerState != ContentLength)
    ensures IsLengthName(h.name) && h.value == [] ==> !LengthOk(h, st.flags.contentLength)
  {
    hide NameRead, ValueScanned, FinishHeader, AllTokens, IsValueText, IsLengthName, StartsLikeEncoding, IsEncodingName,
         IsConnectionName, IsUpgradeName, StartValue, StartAccepted, IsNameState, LengthFrom, SameMessage, IsNum, ValueAccepted;
    NameReadFacts(st, h.name);
    if h.value == [] {
      EmptyAccepted(a);
      FinishLength(b);
    } else if a.headerState == ContentLength {
      LengthAccepted(a, h.value);
      if ValueAccepted(a, h.value) {
        ValueReadFacts(a, h.value);
        FinishLength(b);
      }
    } else {
      ValueReadFacts(a, h.value);
      OtherLength(a, h.value);
      FinishLength(b);
    }
  }

  lemma EmptyAccepted(a: Parser)
    ensures ValueAccepted(a, []) && LengthOf([]) == None
  {
  }

  lemma FinishLength(st: Parser)
    ensures FinishHeader(st).contentLength == st.contentLength && FinishHeader(st).flags.contentLength == st.flags.contentLength
  {
  }

  lemma OtherLength(a: Parser, v: seq<byte>)
    requires a.errno == OK && IsNameState(a.headerState) && a.headerState != ContentLength && v != []
    ensures ValueScanned(a, v).m.h != ContentLength
  {
    hide StartValue, ValueSteps, IsHeaderChar, FlagsKept;
    StartValueFacts(a, v[0]);
    StartedValue(a, v[0]);
    StartValueState(a.headerState, Lower(v[0]));
    ValueStepsFacts(ValueOf(StartValue(a, v[0])), a.lenient, v[1..]);
  }

  // ---------- what a line says ----------

  /** The line is a Connection header, or its Proxy form, in which the option is found. */
  predicate Asks(h: Header, opt: ConnOption) {
    IsConnectionName(h.name) && OptionFound(h.value, Literal(opt))
  }

  /** The line is a Transfer-Encoding at whose end "chunked" is found. */
  predicate Chunking(h: Header) {
    IsEncodingName(h.name) && ChunkedFound(h.value)
  }

  /** The line names a protocol to change to. */
  predicate Upgrading(h: Header) {
    IsUpgradeName(h.name) && h.value != []
  }

  predicate OptionFlags(opt: ConnOption, f: Flags, h: Header, g: Flags) {
    FlagOf(opt, g) <==> FlagOf(opt, f) || Asks(h, opt)
  }

  /** The flags before and after a line. */
  predicate FlagsEffect(f: Flags, h: Header, g: Flags) {
    && (g.chunked <==> f.chunked || Chunking(h)) && (g.upgrade <==> f.upgrade || Upgrading(h))
    && OptionFlags(KeepAliveOption, f, h, g) && OptionFlags(CloseOption, f, h, g) && OptionFlags(UpgradeOption, f, h, g)
  }

  lemma TextConditions(v: seq<byte>)
    requires IsValueText(v)
    ensures ChunkedSeen(v) <==> ChunkedFound(v)
    ensures forall opt: ConnOption :: Raises(opt, v) <==> OptionFound(v, Literal(opt))
  {
    hide Opens, FoundOption, FoundChunked, CodingSteps, OptionSteps, Literal;
    if v != [] {
      NoNul(v);
      ChunkedExact(v);
      forall opt: ConnOption ensures Raises(opt, v) <==> OptionFound(v, Literal(opt)) {
        RaisesExact(opt, v);
      }
    }
  }

  lemma NoNul(v: seq<byte>)
    requires IsValueText(v)
    ensures NUL !in v
  {
  }

  lemma LineOption(opt: ConnOption, st: Parser, h: Header, a: Parser, b: Parser)
    requires st.errno == OK && IsHeaderText(h) && a == NameRead(st, h.name) && ValueAccepted(a, h.value)
    requires b == ValueRead(a, h.value)
    ensures OptionFlags(opt, st.flags, h, FinishHeader(b).flags)
  {
    hide NameRead, ValueRead, FinishHeader, ValueAccepted, AllTokens, IsValueText, IsNameState, IsConnectionName,
         ConnectionFlag, FlagOf, Raises, OptionFound, Literal, IsLengthName, IsEncodingName, IsUpgradeName,
         StartsLikeEncoding;
    NameReadFacts(st, h.name);
    ValueReadOption(opt, a, h.value);
    FinishOption(opt, b);
    TextConditions(h.value);
  }

  lemma LineFlags(st: Parser, h: Header, a: Parser, b: Parser)
    requires st.errno == OK && IsHeaderText(h) && a == NameRead(st, h.name) && ValueAccepted(a, h.value)
    requires b == ValueRead(a, h.value)
    ensures FlagsEffect(st.flags, h, FinishHeader(b).flags)
  {
    hide NameRead, ValueRead, FinishHeader, ValueAccepted, AllTokens, IsValueText, IsNameState, IsConnectionName,
         ConnectionFlag, OptionFlags, IsLengthName, IsEncodingName, IsUpgradeName, StartsLikeEncoding, ChunkedSeen,
         ChunkedFound;
    NameReadFacts(st, h.name);
    LineOption(KeepAliveOption, st, h, a, b);
    LineOption(CloseOption, st, h, a, b);
    LineOption(UpgradeOption, st, h, a, b);
    ValueReadFacts(a, h.value);
    ValueReadCoding(a, h.value);
    FinishFacts(b);
    TextConditions(h.value);
  }

  /** What a whole line does, once the next line has finished it. */
  predicate LineEffect(m: Machine, h: Header, n: Machine) {
    && Alive(n) && n.st.state == HeaderFieldStart && n.mark == Closed
    && SameMessage(m.st, n.st)
    && n.st.nread == m.st.nread + |Line(h)| && n.consumed == m.consumed + |Line(h)|
    && n.log == m.log + [Data(Field, h.name), Data(Value, h.value)]
    && (n.st.usesTransferEncoding <==> m.st.usesTransferEncoding || StartsLikeEncoding(h.name))
    && LengthEffect(m.st, h, n.st)
    && FlagsEffect(m.st.flags, h, n.st.flags)
  }

  lemma LineEffectOf(m: Machine, h: Header, a: Parser, b: Parser, r: Machine)
    requires Alive(m) && m.st.state == HeaderFieldStart && m.mark == Closed && IsHeaderText(h)
    requires a == NameRead(m.st, h.name) && ValueAccepted(a, h.value) && b == ValueRead(a, h.value)
    requires r == m.(st := b, consumed := m.consumed + |Line(h)|,
                     log := m.log + [Data(Field, h.name)] + if h.value == [] then [] else [Data(Value, h.value)])
    ensures r.st.errno == OK && AtLine(r) && (Refused(r) <==> IsLengthName(h.name) && h.value == [])
    ensures if Refused(r) then !LengthOk(h, m.st.flags.contentLength)
            else LengthOk(h, m.st.flags.contentLength) && LineEffect(m, h, NextLine(r))
  {
    hide NameRead, ValueRead, FinishHeader, ValueAccepted, AllTokens, IsValueText, IsLengthName, StartsLikeEncoding,
         IsNameState, IsConnectionName, IsEncodingName, IsUpgradeName, FlagsEffect, SameMessage, LengthEffect, LengthOf;
    NameReadFacts(m.st, h.name);
    ValueReadFacts(a, h.value);
    LineFlags(m.st, h, a, b);
    LineLength(m.st, h, a, b);
    FinishFacts(b);
    FinishNread(b, 0);
    SameThrough(m.st, a, b);
    SameThrough(m.st, b, FinishHeader(b));
    LineCounts(m.st, h);
    assert m.log + [Data(Field, h.name)] + [Data(Value, h.value)] == m.log + [Data(Field, h.name), Data(Value, h.value)];
    assert m.log + [Data(Field, h.name)] + [] + [Data(Value, [])] == m.log + [Data(Field, h.name), Data(Value, [])];
  }

  lemma LineCounts(st: Parser, h: Header)
    requires h.name != []
    ensures var a := NameRead(st, h.name); var b := ValueRead(a, h.value);
      && b.nread == st.nread + |Line(h)|
      && b.state == (if h.value == [] then HeaderValueDiscardLws else HeaderValueLws)
      && (h.value == [] ==> b.headerState == a.headerState)
  {
    hide Scanned, WithName, WithValue, StartValue, ValueScanned;
  }

  /** One line: it fails, at once or at the next octet, exactly if it is a Content-Length that declares no length, or not
      the first. */
  lemma RunLine(m: Machine, h: Header)
    requires Alive(m) && m.st.state == HeaderFieldStart && m.mark == Closed && IsHeaderText(h)
    requires m.st.nread + |Line(h)| <= MAX_HEADER_SIZE
    ensures var r := Run(m, Line(h));
      if r.st.errno != OK then !LengthOk(h, m.st.flags.contentLength)
      else AtLine(r) && if Refused(r) then !LengthOk(h, m.st.flags.contentLength)
                        else LengthOk(h, m.st.flags.contentLength) && LineEffect(m, h, NextLine(r))
  {
    hide Run, NameRead, ValueRead, NextLine, IsHeaderText, LineEffect, ValueAccepted, Refused, AtLine, LengthOk;
    LineParts(m, h);
    var a := NameRead(m.st, h.name);
    if ValueAccepted(a, h.value) {
      LineEffectOf(m, h, a, ValueRead(a, h.value), Run(m, Line(h)));
    } else {
      LineLength(m.st, h, a, ValueRead(a, h.value));
    }
  }

  /** The name and then the value. */
  lemma LineParts(m: Machine, h: Header)
    requires Alive(m) && m.st.state == HeaderFieldStart && m.mark == Closed && IsHeaderText(h)
    requires m.st.nread + |Line(h)| <= MAX_HEADER_SIZE
    ensures h.name != []
    ensures var a, r := NameRead(m.st, h.name), Run(m, Line(h));
      if ValueAccepted(a, h.value) then
        r == m.(st := ValueRead(a, h.value), consumed := m.consumed + |Line(h)|,
                log := m.log + [Data(Field, h.name)] + if h.value == [] then [] else [Data(Value, h.value)])
      else r.st.errno != OK
  {
    hide Run, NameRead, ValueRead, AllTokens, IsValueText, IsOneValue, IsLengthName, StartsLikeEncoding,
         ValueAccepted, SameMessage, IsEncodingName, IsConnectionName, IsUpgradeName, IsNameState;
    NameReadFacts(m.st, h.name);
    NameReadCounts(m.st, h.name);
    RunNamePart(m, h.name);
    RunConcat(m, h.name + COLON_SP, h.value + CRLF);
    TextIsValue(h.value);
    RunValuePart(Run(m, h.name + COLON_SP), h.value);
  }

  lemma NameReadCounts(st: Parser, name: seq<byte>)
    requires name != []
    ensures NameRead(st, name).nread == st.nread + |name| + 2 && NameRead(st, name).state == HeaderValueDiscardWs
  {
    hide Scanned, WithName;
  }

  // ---------- many lines ----------

  function Pairs(hs: seq<Header>): seq<Event> {
    if hs == [] then [] else [Data(Field, hs[0].name), Data(Value, hs[0].value)] + Pairs(hs[1..])
  }

  predicate HasEncodingLike(hs: seq<Header>) {
    hs != [] && (StartsLikeEncoding(hs[0].name) || HasEncodingLike(hs[1..]))
  }

  predicate HasLength(hs: seq<Header>) {
    hs != [] && (IsLengthName(hs[0].name) || HasLength(hs[1..]))
  }

  /** The lines declare at most one length, and none in vain; `had` says that there was one before. */
  predicate LengthsOk(hs: seq<Header>, had: bool)
    decreases |hs|
  {
    hs == [] || (LengthOk(hs[0], had) && LengthsOk(hs[1..], had || IsLengthName(hs[0].name)))
  }

  /** The length declared by the first Content-Length among the lines. */
  function DeclaredBy(hs: seq<Header>): Option<nat> {
    if hs == [] then None else if IsLengthName(hs[0].name) then LengthOf(hs[0].value) else DeclaredBy(hs[1..])
  }

  /** After a Content-Length there must not be another. */
  lemma {:induction false} LengthsHad(hs: seq<Header>)
    ensures LengthsOk(hs, true) <==> !HasLength(hs)
    decreases |hs|
  {
    hide IsLengthName, LengthOf;
    if hs != [] {
      LengthsHad(hs[1..]);
    }
  }

  lemma NoLengths(hs: seq<Header>)
    requires !HasLength(hs)
    ensures LengthsOk(hs, false)
  {
    hide LengthOk, HasLength;
    LengthsHad(hs);
    LengthsWithout(hs);
  }

  lemma {:induction false} LengthsWithout(hs: seq<Header>)
    ensures LengthsOk(hs, true) ==> LengthsOk(hs, false)
    decreases |hs|
  {
    hide IsLengthName, LengthOf;
    if hs != [] {
      LengthsWithout(hs[1..]);
    }
  }

  lemma {:induction false} LengthsDeclared(hs: seq<Header>)
    requires LengthsOk(hs, false)
    ensures DeclaredBy(hs).Some? <==> HasLength(hs)
    decreases |hs|
  {
    hide IsLengthName, LengthOf;
    if hs != [] && !IsLengthName(hs[0].name) {
      LengthsDeclared(hs[1..]);
    }
  }

  predicate LengthEffects(a: Parser, hs: seq<Header>, b: Parser) {
    && b.contentLength == (if HasLength(hs) && DeclaredBy(hs).Some? then DeclaredBy(hs).value else a.contentLength)
    && (b.flags.contentLength <==> a.flags.contentLength || HasLength(hs))
  }

  lemma LengthsCompose(a: Parser, hs: seq<Header>, b: Parser, c: Parser)
    requires hs != [] && LengthEffect(a, hs[0], b) && LengthEffects(b, hs[1..], c) && LengthsOk(hs[1..], b.flags.contentLength)
    ensures LengthEffects(a, hs, c)
  {
    hide IsLengthName, LengthOf;
    if IsLengthName(hs[0].name) {
      LengthsHad(hs[1..]);
    }
  }

  /** One of the lines asks for the option. */
  predicate AskFor(hs: seq<Header>, opt: ConnOption) {
    hs != [] && (Asks(hs[0], opt) || AskFor(hs[1..], opt))
  }

  predicate Closes(hs: seq<Header>) {
    AskFor(hs, CloseOption)
  }

  predicate Chunks(hs: seq<Header>) {
    hs != [] && (Chunking(hs[0]) || Chunks(hs[1..]))
  }

  predicate Upgrades(hs: seq<Header>) {
    hs != [] && (Upgrading(hs[0]) || Upgrades(hs[1..]))
  }

  predicate AllOptionFlags(opt: ConnOption, f: Flags, hs: seq<Header>, g: Flags) {
    FlagOf(opt, g) <==> FlagOf(opt, f) || AskFor(hs, opt)
  }

  /** The flags before and after a list of lines. */
  predicate FlagsEffects(f: Flags, hs: seq<Header>, g: Flags) {
    && (g.chunked <==> f.chunked || Chunks(hs)) && (g.upgrade <==> f.upgrade || Upgrades(hs))
    && AllOptionFlags(KeepAliveOption, f, hs, g) && AllOptionFlags(CloseOption, f, hs, g)
    && AllOptionFlags(UpgradeOption, f, hs, g)
  }

  lemma FlagsCompose(f: Flags, hs: seq<Header>, g: Flags, k: Flags)
    requires hs != [] && FlagsEffect(f, hs[0], g) && FlagsEffects(g, hs[1..], k)
    ensures FlagsEffects(f, hs, k)
  {
    hide Chunking, Upgrading, Asks, FlagOf;
  }

  /** Only a header that begins like Transfer-Encoding makes a message chunked. */
  lemma {:induction false} ChunksNeedEncoding(hs: seq<Header>)
    ensures Chunks(hs) ==> HasEncodingLike(hs)
    decreases |hs|
  {
    hide StartsLikeEncoding, IsEncodingName, ChunkedFound;
    if hs != [] {
      if IsEncodingName(hs[0].name) {
        EncodingNameStarts(hs[0].name);
      }
      ChunksNeedEncoding(hs[1..]);
    }
  }

  predicate AreHeaderTexts(hs: seq<Header>) {
    forall i :: 0 <= i < |hs| ==> IsHeaderText(hs[i])
  }

  predicate Normal(m: Machine) {
    Alive(m) && m.st.state == HeaderFieldStart && m.mark == Closed
  }

  /** What a list of lines does. */
  predicate LinesEffect(m: Machine, hs: seq<Header>, n: Machine) {
    && Normal(n) && SameMessage(m.st, n.st)
    && n.st.nread == m.st.nread + |Lines(hs)| && n.consumed == m.consumed + |Lines(hs)|
    && n.log == m.log + Pairs(hs)
    && (n.st.usesTransferEncoding <==> m.st.usesTransferEncoding || HasEncodingLike(hs))
    && LengthEffects(m.st, hs, n.st)
    && FlagsEffects(m.st.flags, hs, n.st.flags)
  }

  lemma EffectsCompose(m: Machine, hs: seq<Header>, n1: Machine, n: Machine)
    requires hs != [] && LineEffect(m, hs[0], n1) && LinesEffect(n1, hs[1..], n)
    requires LengthsOk(hs[1..], n1.st.flags.contentLength)
    ensures LinesEffect(m, hs, n)
  {
    hide StartsLikeEncoding, IsLengthName, Line, FlagsEffect, FlagsEffects, SameMessage, LengthEffect, LengthEffects, LengthOf;
    SameThrough(m.st, n1.st, n.st);
    LengthsCompose(m.st, hs, n1.st, n.st);
    FlagsCompose(m.st.flags, hs, n1.st.flags, n.st.flags);
    assert m.log + [Data(Field, hs[0].name), Data(Value, hs[0].value)] + Pairs(hs[1..]) == m.log + Pairs(hs);
    assert |Lines(hs)| == |Line(hs[0])| + |Lines(hs[1..])|;
  }

  lemma NoEffect(m: Machine)
    requires Normal(m)
    ensures LinesEffect(m, [], m)
  {
    hide SameMessage;
    SameSelf(m.st);
    assert m.log + [] == m.log;
  }

  /** Where a list of lines leaves the parser: it fails, at the latest at the next octet, exactly for its lengths. */
  predicate AfterLines(m: Machine, hs: seq<Header>, r: Machine) {
    var ok := LengthsOk(hs, m.st.flags.contentLength);
    if r.st.errno != OK then !ok else AtLine(r) && if Refused(r) then !ok else ok && LinesEffect(m, hs, NextLine(r))
  }

  lemma FirstLetter(h: Header)
    requires IsHeaderText(h)
    ensures Line(h) != [] && Line(h)[0] != SP && Line(h)[0] != HT
  {
    assert Token(h.name[0]) != 0;
    assert Line(h)[0] == h.name[0];
  }

  lemma {:induction false} RunLines(m: Machine, hs: seq<Header>)
    requires Normal(m) && AreHeaderTexts(hs) && m.st.nread + |Lines(hs)| <= MAX_HEADER_SIZE
    ensures AfterLines(m, hs, Run(m, Lines(hs)))
    decreases |hs|
  {
    hide ByteStep, Line, IsHeaderText, StartsLikeEncoding, IsLengthName, LineEffect, LinesEffect, AtLine, NextLine, Refused,
         LengthOk;
    if hs == [] {
      NoEffect(m);
      AtNormalLine(m);
    } else {
      RunFirstLine(m, hs);
    }
  }

  lemma AtNormalLine(m: Machine)
    requires Normal(m)
    ensures AtLine(m) && !Refused(m) && NextLine(m) == m
  {
  }

  lemma {:induction false} RunFirstLine(m: Machine, hs: seq<Header>)
    requires Normal(m) && hs != [] && AreHeaderTexts(hs) && m.st.nread + |Lines(hs)| <= MAX_HEADER_SIZE
    ensures AfterLines(m, hs, Run(m, Lines(hs)))
    decreases |hs|, 0
  {
    hide ByteStep, Run, Line, IsHeaderText, StartsLikeEncoding, IsLengthName, LineEffect, LinesEffect, AtLine, NextLine,
         Refused, LengthOk, LengthsOk;
    var r1, rest := Run(m, Line(hs[0])), Lines(hs[1..]);
    RunLine(m, hs[0]);
    LengthsFirst(hs, m.st.flags.contentLength);
    RunConcat(m, Line(hs[0]), rest);
    if r1.st.errno != OK {
      RunStopped(r1, rest);
    } else if hs[1..] == [] {
      RunEmpty(r1);
      assert rest == [];
      if !Refused(r1) {
        NormalAfter(m, hs[0], NextLine(r1));
        NoEffect(NextLine(r1));
        LengthsFirst(hs, NextLine(r1).st.flags.contentLength);
        EffectsCompose(m, hs, NextLine(r1), NextLine(r1));
      }
    } else {
      FirstLetter(hs[1]);
      assert rest == Line(hs[1]) + Lines(hs[1..][1..]) && rest[0] == Line(hs[1])[0];
      LineReadCounts(m, hs[0], r1);
      LineNonempty(hs[1]);
      RunFromLine(r1, rest);
      if !Refused(r1) {
        NormalAfter(m, hs[0], NextLine(r1));
        RunLines(NextLine(r1), hs[1..]);
        LinesCompose(m, hs, NextLine(r1), Run(NextLine(r1), rest));
      }
    }
  }

  lemma LengthsFirst(hs: seq<Header>, had: bool)
    requires hs != []
    ensures LengthsOk(hs, had) ==> LengthOk(hs[0], had)
    ensures hs[1..] == [] ==> (LengthsOk(hs, had) <==> LengthOk(hs[0], had))
    ensures LengthsOk([], had)
  {
    hide LengthOk;
  }

  lemma LineNonempty(h: Header)
    ensures |Line(h)| > 0
  {
  }

  lemma NormalAfter(m: Machine, h: Header, n: Machine)
    requires LineEffect(m, h, n)
    ensures Normal(n) && n.st.nread == m.st.nread + |Line(h)|
    ensures n.st.flags.contentLength <==> m.st.flags.contentLength || IsLengthName(h.name)
  {
    hide IsLengthName, LengthOf, FlagsEffect, SameMessage;
  }

  lemma LineReadCounts(m: Machine, h: Header, r: Machine)
    requires Normal(m) && IsHeaderText(h) && m.st.nread + |Line(h)| <= MAX_HEADER_SIZE
    requires r == Run(m, Line(h)) && r.st.errno == OK
    ensures r.st.nread == m.st.nread + |Line(h)|
  {
    hide Run, NameRead, ValueRead, AllTokens, IsValueText, IsOneValue, ValueAccepted, NextLine;
    var a := NameRead(m.st, h.name);
    NameReadFacts(m.st, h.name);
    NameReadCounts(m.st, h.name);
    RunNamePart(m, h.name);
    RunConcat(m, h.name + COLON_SP, h.value + CRLF);
    TextIsValue(h.value);
    RunValuePart(Run(m, h.name + COLON_SP), h.value);
    LineCounts(m.st, h);
  }

  lemma LinesCompose(m: Machine, hs: seq<Header>, n1: Machine, r: Machine)
    requires hs != [] && LineEffect(m, hs[0], n1) && LengthOk(hs[0], m.st.flags.contentLength) && AfterLines(n1, hs[1..], r)
    ensures AfterLines(m, hs, r)
  {
    hide LineEffect, LinesEffect, NextLine, Refused, AtLine, IsLengthName, LengthOk;
    NormalAfter(m, hs[0], n1);
    if r.st.errno == OK && !Refused(r) {
      EffectsCompose(m, hs, n1, NextLine(r));
    }
  }
}
