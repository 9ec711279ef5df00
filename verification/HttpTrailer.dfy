/** Chunked bodies with trailer fields behind the last chunk. */
module HttpTrailer {
  import opened Bytes
  import opened HttpTypes
  import opened HttpAct
  import opened HttpMachine
  import opened HttpRuns
  import opened HttpResponse
  import opened HttpOptions
  import opened HttpChunked
  import opened HttpBlock

  predicate AtTrailer(m: Machine) {
    Normal(m) && m.st.flags.trailing && m.st.nread == 0
  }

  /** The fields of the trailer, delivered as pairs, and the end of the message. */
  function TrailerEvents(ts: seq<Header>): seq<Event> {
    Pairs(ts) + [ChunkComplete, MessageComplete]
  }

  lemma LinesKeep(m: Machine, ts: seq<Header>, n: Machine)
    requires LinesEffect(m, ts, n)
    ensures n.st.flags.trailing == m.st.flags.trailing && n.st.upgrade == m.st.upgrade && n.st.kind == m.st.kind
    ensures Normal(n) && n.st.nread == m.st.nread + |Lines(ts)| && n.consumed == m.consumed + |Lines(ts)|
    ensures n.log == m.log + Pairs(ts)
  {
    hide Lines, Pairs, HasEncodingLike, LengthEffects, FlagsEffects;
  }

  /** The trailer is read as header lines are. */
  lemma RunTrailerLines(m: Machine, ts: seq<Header>)
    requires AtTrailer(m) && AreHeaderTexts(ts) && |Lines(ts)| + 2 <= MAX_HEADER_SIZE
    ensures var r := Run(m, Lines(ts) + CRLF);
      if LengthsOk(ts, m.st.flags.contentLength) then
        var n := NextLine(Run(m, Lines(ts)));
        && LinesEffect(m, ts, n)
        && r == n.(st := TrailerRead(n.st), consumed := n.consumed + 2, exited := m.st.upgrade,
                   log := m.log + TrailerEvents(ts))
      else r.st.errno != OK
  {
    hide Run, Lines, AreHeaderTexts, LinesEffect, NextLine, Refused, AtLine, LengthsOk, TrailerRead, Pairs;
    RunLines(m, ts);
    RunConcat(m, Lines(ts), CRLF);
    var r := Run(m, Lines(ts));
    if LengthsOk(ts, m.st.flags.contentLength) {
      var n := NextLine(r);
      LinesKeep(m, ts, n);
      NextLineNread(r, 0);
      RunFromLine(r, CRLF);
      RunTrailer(n);
      assert m.log + Pairs(ts) + [ChunkComplete, MessageComplete] == m.log + TrailerEvents(ts);
    } else if r.st.errno != OK {
      RunStopped(r, CRLF);
    } else {
      RunFromLine(r, CRLF);
    }
  }

  // ---------- the whole body ----------

  /** A chunked body with trailer fields. */
  function EncodeTrailed(cs: seq<Chunk>, size: seq<byte>, x: seq<byte>, ts: seq<Header>): seq<byte> {
    EncodeChunks(cs) + (SizeLine(size, x) + (Lines(ts) + CRLF))
  }

  function TrailedEvents(cs: seq<Chunk>, ts: seq<Header>): seq<Event> {
    ChunksEvents(cs) + [ChunkHeader(0)] + TrailerEvents(ts)
  }

  /** The parser in front of the trailer. */
  function LastRead(st: Parser): Parser {
    SizeRead(st.(contentLength := 0))
  }

  lemma LastReadFacts(m: Machine, n: nat, log: seq<Event>)
    requires AtChunk(m)
    ensures AtTrailer(m.(st := LastRead(m.st), consumed := n, log := log))
    ensures LastRead(m.st) == m.st.(nread := 0, contentLength := 0, state := HeaderFieldStart,
                                    flags := m.st.flags.(trailing := true))
    ensures LastRead(ChunkRead(m.st)) == LastRead(m.st)
  {
  }

  lemma RunToTrailer(m: Machine, cs: seq<Chunk>, size: seq<byte>, x: seq<byte>)
    requires AtChunk(m) && IsLast(size, x) && forall i :: 0 <= i < |cs| ==> IsChunk(cs[i])
    ensures Run(m, EncodeChunks(cs) + SizeLine(size, x)) == m.(
      st := LastRead(m.st), consumed := m.consumed + |EncodeChunks(cs)| + |SizeLine(size, x)|,
      log := m.log + (ChunksEvents(cs) + [ChunkHeader(0)]))
  {
    hide Act, ByteStep, Run, HexFrom, SizeLine, IsSizeText, SizeFits, IsChunk, ChunksEvents, EncodeChunks, SizeRead;
    SizeFitsSmall(size);
    RunChunks(m, cs);
    var m1 := Run(m, EncodeChunks(cs));
    LastReadFacts(m, 0, []);
    RunSizeLine(m1, size, x);
    RunConcat(m, EncodeChunks(cs), SizeLine(size, x));
    assert m.log + ChunksEvents(cs) + [ChunkHeader(0)] == m.log + (ChunksEvents(cs) + [ChunkHeader(0)]);
  }

  lemma TrailedRegrouped(cs: seq<Chunk>, size: seq<byte>, x: seq<byte>, ts: seq<Header>)
    ensures EncodeTrailed(cs, size, x, ts) == EncodeChunks(cs) + SizeLine(size, x) + (Lines(ts) + CRLF)
  {
    hide EncodeChunks, SizeLine, Lines;
  }

  /** The parser was told of the lines `hs` in its head. */
  predicate Told(st: Parser, x: byte, y: byte, hs: seq<Header>)
    requires IsNum(x) && IsNum(y)
  {
    && st.flags.chunked && st.httpMajor == DigitOf(x) && st.httpMinor == DigitOf(y)
    && (st.flags.keepAlive <==> AskFor(hs, KeepAliveOption)) && (st.flags.close <==> Closes(hs))
  }

  lemma {:induction false} AskForConcat(hs: seq<Header>, ts: seq<Header>, opt: ConnOption)
    ensures AskFor(hs + ts, opt) <==> AskFor(hs, opt) || AskFor(ts, opt)
    decreases |hs|
  {
    hide Asks;
    if hs == [] {
      assert hs + ts == ts;
    } else {
      AskForConcat(hs[1..], ts, opt);
      assert (hs + ts)[1..] == hs[1..] + ts;
    }
  }

  lemma ToldToo(m: Machine, x: byte, y: byte, hs: seq<Header>, ts: seq<Header>, n: Machine)
    requires IsNum(x) && IsNum(y) && Told(m.st, x, y, hs) && LinesEffect(m, ts, n)
    ensures Told(n.st, x, y, hs + ts)
  {
    hide Lines, Pairs, HasEncodingLike, LengthEffects, AskFor, IsNum, DigitOf;
    AskForConcat(hs, ts, KeepAliveOption);
    AskForConcat(hs, ts, CloseOption);
  }

  lemma TrailerReadState(st: Parser, x: byte, y: byte, hs: seq<Header>)
    requires IsNum(x) && IsNum(y) && Told(st, x, y, hs)
    ensures TrailerRead(st) == st.(nread := st.nread + 2, state := NextStart(st.kind, StaysOpen(x, y, hs)))
  {
    hide NewMessage, AskFor, IsNum, DigitOf, StaysOpen;
    KeptOpen(st.(nread := st.nread + 2, state := MessageDone), x, y, hs);
  }

  /** A chunked body with a trailer: its fields are delivered behind the last chunk, and whether the connection stays open is
      decided by the lines of the head and of the trailer together. A trailer is refused exactly for its lengths: one that
      declares nothing, or more than one with those of the head. */
  lemma TrailedRoundTrip(m: Machine, x: byte, y: byte, hs: seq<Header>, cs: seq<Chunk>, size: seq<byte>, ext: seq<byte>,
                         ts: seq<Header>)
    requires AtChunk(m) && IsNum(x) && IsNum(y) && Told(m.st, x, y, hs)
    requires IsLast(size, ext) && forall i :: 0 <= i < |cs| ==> IsChunk(cs[i])
    requires AreHeaderTexts(ts) && |Lines(ts)| + 2 <= MAX_HEADER_SIZE
    ensures var r := Run(m, EncodeTrailed(cs, size, ext, ts));
      if LengthsOk(ts, m.st.flags.contentLength) then
        && r.st.errno == OK && r.mark == Closed && r.log == m.log + TrailedEvents(cs, ts)
        && r.consumed == m.consumed + |EncodeTrailed(cs, size, ext, ts)|
        && r.exited == m.st.upgrade && r.st.state == NextStart(m.st.kind, StaysOpen(x, y, hs + ts))
      else r.st.errno != OK
  {
    hide Run, EncodeChunks, SizeLine, Lines, AreHeaderTexts, IsChunk, IsLast, ChunksEvents, LinesEffect, LengthsOk, NextLine,
         Told, LastRead, TrailerEvents, StaysOpen, TrailerRead, AtChunk, IsNum;
    var body := EncodeChunks(cs) + SizeLine(size, ext);
    TrailedRegrouped(cs, size, ext, ts);
    RunToTrailer(m, cs, size, ext);
    var m1 := Run(m, body);
    LastReadFacts(m, m1.consumed, m1.log);
    RunTrailerLines(m1, ts);
    RunConcat(m, body, Lines(ts) + CRLF);
    if LengthsOk(ts, m.st.flags.contentLength) {
      var n := NextLine(Run(m1, Lines(ts)));
      LinesKeep(m1, ts, n);
      ToldStill(m, m1, x, y, hs);
      ToldToo(m1, x, y, hs, ts, n);
      TrailerReadState(n.st, x, y, hs + ts);
      assert m.log + (ChunksEvents(cs) + [ChunkHeader(0)]) + TrailerEvents(ts) == m.log + TrailedEvents(cs, ts);
    }
  }

  lemma ToldStill(m: Machine, n: Machine, x: byte, y: byte, hs: seq<Header>)
    requires IsNum(x) && IsNum(y) && Told(m.st, x, y, hs)
    requires n.st == m.st.(nread := 0, contentLength := 0, state := HeaderFieldStart, flags := m.st.flags.(trailing := true))
    ensures Told(n.st, x, y, hs)
  {
    hide AskFor;
  }
}
