/** The request target: what the message parser accepts between the method and the version, and how that
    compares with http_parser_parse_url. */
module HttpRequestLine {
  import opened Bytes
  import opened HttpTypes
  import opened HttpAct
  import opened HttpMachine
  import opened HttpRuns
  import Url = UrlAutomaton
  import UrlGrammar
  import UrlText

  lemma ActTargetStart(st: Parser, ch: byte)
    requires st.errno == OK && st.state == ReqSpacesBeforeUrl && ch != SP
    ensures var s := ParseUrlChar(Url.Start(st.verb == CONNECT), ch);
      if s == Dead then Act(st, ch).st.errno != OK && Act(st, ch).next == Consume
      else Act(st, ch) == Effect(st.(state := s), Open(Part.Url), Consume)
  {
    hide Lawful, ParseUrlChar, ActHeaders, ActBeforeValue, ActBody, ActChunkHeader, ActStart, ActResponseProtocol,
         ActResponseVersion, ActResponseStatus, ActHeadersAlmostDone, ActHeadersDone, ActReqMethod, ActRequestProtocol,
         ActRequestVersion;
  }

  lemma ActTarget(st: Parser, ch: byte)
    requires st.errno == OK && InUrl(st.state) && ch != SP && ch != CR && ch != LF
    ensures var s := ParseUrlChar(st.state, ch);
      if s == Dead then Act(st, ch).st.errno != OK && Act(st, ch).next == Consume
      else Act(st, ch) == Effect(st.(state := s), Nothing, Consume)
  {
    hide Lawful, ParseUrlChar, ActHeaders, ActBeforeValue, ActBody, ActChunkHeader, ActStart, ActResponseProtocol,
         ActResponseVersion, ActResponseStatus, ActHeadersAlmostDone, ActHeadersDone, ActReqMethod, ActRequestProtocol,
         ActRequestVersion;
  }

  lemma ActTargetEnd(st: Parser)
    requires st.errno == OK && InUrl(st.state)
    ensures if InUrlPrefix(st.state) then Act(st, SP).st.errno != OK && Act(st, SP).next == Consume
            else Act(st, SP) == Effect(st.(state := ReqHttpStart), Close, Consume)
  {
    hide Lawful, ParseUrlChar, ActHeaders, ActBeforeValue, ActBody, ActChunkHeader, ActStart, ActResponseProtocol,
         ActResponseVersion, ActResponseStatus, ActHeadersAlmostDone, ActHeadersDone, ActReqMethod, ActRequestProtocol,
         ActRequestVersion;
  }

  predicate AtTarget(m: Machine, n: nat) {
    Alive(m) && m.st.state == ReqSpacesBeforeUrl && m.mark == Closed && m.st.nread + n <= MAX_HEADER_SIZE
  }

  /** The octets of a target, without the white space that ends it. */
  predicate IsTargetText(t: seq<byte>) {
    t != [] && forall i :: 0 <= i < |t| ==> t[i] != SP && t[i] != CR && t[i] != LF
  }

  /** The parser inside the target `t`. */
  function InTarget(m: Machine, t: seq<byte>): Machine {
    m.(st := m.st.(state := Url.Scan(Url.Start(m.st.verb == CONNECT), t), nread := m.st.nread + |t|),
       mark := Opened(Part.Url, t), consumed := m.consumed + |t|)
  }

  lemma StepTargetStart(m: Machine, ch: byte)
    requires AtTarget(m, 1) && ch != SP
    ensures var s := ParseUrlChar(Url.Start(m.st.verb == CONNECT), ch);
      if s == Dead then ByteStep(m, ch).st.errno != OK
      else ByteStep(m, ch) == m.(st := m.st.(state := s, nread := m.st.nread + 1), mark := Opened(Part.Url, [ch]),
                                 consumed := m.consumed + 1)
  {
    hide Act, ByteStep, ParseUrlChar;
    CountHeader(m.st);
    ActTargetStart(Count(m.st), ch);
    StepConsume(m, ch, Act(Count(m.st), ch));
    assert [] + [ch] == [ch];
  }

  lemma StepTarget(m: Machine, ch: byte)
    requires Alive(m) && InUrl(m.st.state) && m.mark.Opened? && m.st.nread < MAX_HEADER_SIZE
    requires ch != SP && ch != CR && ch != LF
    ensures var s := ParseUrlChar(m.st.state, ch);
      if s == Dead then ByteStep(m, ch).st.errno != OK
      else ByteStep(m, ch) == m.(st := m.st.(state := s, nread := m.st.nread + 1), consumed := m.consumed + 1,
                                 mark := m.mark.(bytes := m.mark.bytes + [ch]))
  {
    hide Act, ByteStep, ParseUrlChar;
    CountHeader(m.st);
    ActTarget(Count(m.st), ch);
    StepConsume(m, ch, Act(Count(m.st), ch));
  }

  lemma {:induction false} RunTarget(m: Machine, t: seq<byte>)
    requires AtTarget(m, |t|) && IsTargetText(t)
    ensures if Url.Scan(Url.Start(m.st.verb == CONNECT), t) == Dead then Run(m, t).st.errno != OK
            else Run(m, t) == InTarget(m, t)
    decreases |t|
  {
    hide Act, ByteStep, ParseUrlChar, Run, InUrl;
    var k := |t| - 1;
    var init, ch := t[..k], t[k];
    assert t == init + [ch];
    RunSnoc(m, init, ch);
    if init == [] {
      StepTargetStart(m, ch);
      RunEmpty(m);
      assert t == [ch];
      assert Url.Scan(Url.Start(m.st.verb == CONNECT), init) == Url.Start(m.st.verb == CONNECT);
    } else {
      RunTarget(m, init);
      Url.DeadEnd(ch);
      if Url.Scan(Url.Start(m.st.verb == CONNECT), init) == Dead {
        StepStopped(Run(m, init), ch);
      } else {
        Url.InsideUrl(Url.Start(m.st.verb == CONNECT), init);
        StepTarget(Run(m, init), ch);
      }
    }
  }

  /** A target and its space: delivered in one piece if and only if it is put together from a scheme, a server part, a
      path, a query and a fragment as a target may be; any other text is an error. */
  lemma TargetExact(m: Machine, t: seq<byte>)
    requires AtTarget(m, |t| + 1) && IsTargetText(t)
    ensures var r := Run(m, t + [SP]);
      if !UrlGrammar.IsTarget(t, m.st.verb == CONNECT) then r.st.errno != OK
      else r == m.(st := m.st.(state := ReqHttpStart, nread := m.st.nread + |t| + 1), consumed := m.consumed + |t| + 1,
                   log := m.log + [Data(Part.Url, t)])
  {
    hide Act, ByteStep, ParseUrlChar, Run, InUrl, InUrlPrefix, UrlGrammar.IsTarget, Url.Scan;
    UrlGrammar.TargetScan(t, m.st.verb == CONNECT);
    RunSnoc(m, t, SP);
    RunTarget(m, t);
    if Url.Scan(Url.Start(m.st.verb == CONNECT), t) == Dead {
      StepStopped(Run(m, t), SP);
    } else {
      Url.InsideUrl(Url.Start(m.st.verb == CONNECT), t);
      StepTargetEnd(InTarget(m, t));
    }
  }

  lemma StepTargetEnd(m: Machine)
    requires Alive(m) && InUrl(m.st.state) && m.mark.Opened? && m.st.nread < MAX_HEADER_SIZE
    ensures if InUrlPrefix(m.st.state) then ByteStep(m, SP).st.errno != OK
            else ByteStep(m, SP) == m.(st := m.st.(state := ReqHttpStart, nread := m.st.nread + 1), mark := Closed,
                                       consumed := m.consumed + 1, log := m.log + [Data(m.mark.part, m.mark.bytes)])
  {
    hide Act, ByteStep, ParseUrlChar;
    CountHeader(m.st);
    ActTargetEnd(Count(m.st));
    StepConsume(m, SP, Act(Count(m.st), SP));
  }

  // ---------- compared with http_parser_parse_url ----------

  lemma OnlyPrintable(s: State, ch: byte)
    requires ParseUrlChar(s, ch) != Dead
    ensures 33 <= ch <= 126
  {
  }

  lemma {:induction false} Printable(s: State, t: seq<byte>)
    requires Url.Scan(s, t) != Dead
    ensures forall i :: 0 <= i < |t| ==> 33 <= t[i] <= 126
    decreases |t|
  {
    hide ParseUrlChar;
    if t != [] {
      var init, ch := t[..|t| - 1], t[|t| - 1];
      Url.DeadEnd(ch);
      OnlyPrintable(Url.Scan(s, init), ch);
      Printable(s, init);
    }
  }

  /** White space, control octets, DEL and the octets above it are refused wherever they stand in a target. */
  lemma TargetPrintable(t: seq<byte>, isConnect: bool)
    requires UrlGrammar.IsTarget(t, isConnect)
    ensures IsTargetText(t) && forall i :: 0 <= i < |t| ==> 33 <= t[i] <= 126
  {
    hide UrlGrammar.IsTarget, Url.Scan, InUrlPrefix;
    UrlGrammar.TargetScan(t, isConnect);
    Printable(Url.Start(isConnect), t);
  }

  /** Every URL, put together from its parts, is taken as a request target and delivered in one piece. */
  lemma UrlTaken(m: Machine, u: UrlText.UrlParts)
    requires AtTarget(m, |UrlText.TextOf(u)| + 1) && UrlText.IsUrl(u, m.st.verb == CONNECT)
    ensures var t := UrlText.TextOf(u);
      Run(m, t + [SP]) == m.(st := m.st.(state := ReqHttpStart, nread := m.st.nread + |t| + 1), consumed := m.consumed + |t| + 1,
                             log := m.log + [Data(Part.Url, t)])
  {
    hide Run, UrlText.TextOf, UrlText.IsUrl, UrlGrammar.IsTarget, IsTargetText;
    UrlText.UrlIsTarget(u, m.st.verb == CONNECT);
    TargetPrintable(UrlText.TextOf(u), m.st.verb == CONNECT);
    TargetExact(m, UrlText.TextOf(u));
  }

  /** Two parsers agree: every URL that http_parser_parse_url accepts is accepted as a request target. */
  lemma AcceptedUrlIsTarget(m: Machine, t: seq<byte>)
    requires AtTarget(m, |t| + 1) && Url.Splits(t, m.st.verb == CONNECT)
    ensures var r := Run(m, t + [SP]); r.st.errno == OK && r.st.state == ReqHttpStart && r.log == m.log + [Data(Part.Url, t)]
  {
    hide Act, Run, ParseUrlChar, InUrlPrefix, Url.HostOk, Url.SpansOf, Url.Behind, Url.Matches, UrlGrammar.IsTarget;
    var s0 := Url.Start(m.st.verb == CONNECT);
    Printable(s0, t);
    Url.PastTheScheme(s0, t, m.st.verb == CONNECT);
    UrlGrammar.TargetScan(t, m.st.verb == CONNECT);
    TargetExact(m, t);
  }
}
