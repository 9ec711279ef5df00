/** A response from its status line to the blank line. */
module HttpHead {
  import opened Bytes
  import opened HttpTypes
  import opened HttpAct
  import opened HttpMachine
  import opened HttpRuns
  import opened HttpResponse
  import opened HttpStatusLine
  import opened HttpBlock

  function HeadText(x: byte, y: byte, code: nat, reason: seq<byte>, hs: seq<Header>): seq<byte>
    requires code < 1000
  {
    StatusLine(x, y, code, reason) + Lines(hs) + CRLF
  }

  function HeadEvents(reason: seq<byte>, hs: seq<Header>): seq<Event> {
    [MessageBegin, Data(Status, reason)] + Pairs(hs)
  }

  /** What a sender may put into a head that this parser is to read. */
  predicate IsHead(x: byte, y: byte, code: nat, reason: seq<byte>, hs: seq<Header>) {
    && IsNum(x) && IsNum(y) && code < 1000 && NoLineEnd(reason) && AreHeaderTexts(hs)
    && |HeadText(x, y, code, reason, hs)| <= MAX_HEADER_SIZE
  }

  /** The parser in front of the blank line. */
  predicate HeadRead(m: Machine, x: byte, y: byte, code: nat, reason: seq<byte>, hs: seq<Header>, n: Machine)
    requires IsNum(x) && IsNum(y) && code < 1000
  {
    && Normal(n) && Ordinary(n.st) && SameSettings(m.st, n.st) && n.st.kind == Response && n.st.verb != CONNECT
    && n.st.statusCode == code && n.st.httpMajor == DigitOf(x) && n.st.httpMinor == DigitOf(y)
    && n.st.nread + 2 <= MAX_HEADER_SIZE && n.consumed + 2 == m.consumed + |HeadText(x, y, code, reason, hs)|
    && n.log == m.log + HeadEvents(reason, hs) && Declared(hs, n.st) && Recorded(hs, n.st.flags)
  }

  lemma StatusReadFacts(m: Machine, x: byte, y: byte, code: nat, n: nat)
    requires Ready(m) && IsNum(x) && IsNum(y)
    ensures var st := StatusRead(m.st, x, y, code, n);
      && Ordinary(st) && Blank(st) && SameSettings(m.st, st) && st.errno == OK && st.nread == n
      && st.state == HeaderFieldStart && st.statusCode == code && st.httpMajor == DigitOf(x) && st.httpMinor == DigitOf(y)
      && st.kind == Response && st.verb != CONNECT
    ensures m.mark == Closed && !m.exited
  {
  }

  lemma HeadReadOf(m: Machine, x: byte, y: byte, code: nat, reason: seq<byte>, hs: seq<Header>, m1: Machine, n: Machine)
    requires IsHead(x, y, code, reason, hs) && BlockEffect(m1, hs, n)
    requires m1.log == m.log + [MessageBegin, Data(Status, reason)]
    requires m1.consumed == m.consumed + |StatusLine(x, y, code, reason)|
    requires Ordinary(m1.st) && SameSettings(m.st, m1.st) && m1.st.nread == |StatusLine(x, y, code, reason)|
    requires m1.st.kind == Response && m1.st.verb != CONNECT
    requires m1.st.statusCode == code && m1.st.httpMajor == DigitOf(x) && m1.st.httpMinor == DigitOf(y)
    ensures HeadRead(m, x, y, code, reason, hs, n)
  {
    hide Lines, StatusLine, Pairs, Declared, Recorded, AreHeaderTexts, Ordinary, IsNum, DigitOf;
    OrdinaryKept(m1.st, n.st);
    assert m1.log + Pairs(hs) == m.log + HeadEvents(reason, hs);
  }

  /** Everything in front of the blank line, whatever follows it: refused exactly for the lengths among the lines. */
  lemma RunHead(m: Machine, x: byte, y: byte, code: nat, reason: seq<byte>, hs: seq<Header>, rest: seq<byte>)
    requires Ready(m) && IsHead(x, y, code, reason, hs)
    ensures var line := StatusLine(x, y, code, reason);
      if LengthsOk(hs, false) then
        var n := NextLine(Run(m, line + Lines(hs)));
        HeadRead(m, x, y, code, reason, hs, n) && Run(m, line + Lines(hs) + (CRLF + rest)) == Run(n, CRLF + rest)
      else Run(m, line + Lines(hs) + (CRLF + rest)).st.errno != OK
  {
    hide Run, StatusLine, Lines, NextLine, LengthsOk, BlockEffect, StatusRead, Blank, Ready, AreHeaderTexts, HeadRead, Pairs,
         IsNum, DigitOf;
    var line := StatusLine(x, y, code, reason);
    var m1 := Run(m, line);
    RunStatusLine(m, x, y, code, reason);
    StatusReadFacts(m, x, y, code, |line|);
    RunBehindBlock(m1, hs, CRLF + rest);
    RunConcat(m, line, Lines(hs));
    RunConcat(m, line, Lines(hs) + (CRLF + rest));
    assert line + Lines(hs) + (CRLF + rest) == line + (Lines(hs) + (CRLF + rest));
    if LengthsOk(hs, false) {
      HeadReadOf(m, x, y, code, reason, hs, m1, NextLine(Run(m1, Lines(hs))));
    }
  }
}
