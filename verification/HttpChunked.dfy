/** Chunked transfer coding (RFC 7230 section 4.1): the size accumulator is exact, and decoding
    inverts encoding. */
module HttpChunked {
  import opened Bytes
  import opened HttpTypes
  import opened HttpAct
  import opened HttpMachine
  import opened HttpRuns

  // ---------- chunk sizes ----------

  /** The chunk-size of RFC 7230: hexadecimal digits. */
  predicate IsHexText(s: seq<byte>) {
    forall i :: 0 <= i < |s| ==> IsHex(s[i])
  }

  /** What the parser takes for a digit of a size: a hexadecimal digit, or any octet above 127. */
  predicate IsSizeOctet(c: byte) {
    IsHex(c) || c > 127
  }

  predicate IsSizeText(s: seq<byte>) {
    forall i :: 0 <= i < |s| ==> IsSizeOctet(s[i])
  }

  /** The value of a digit of a size. */
  function Digit(c: byte): (d: nat)
    requires IsSizeOctet(c)
    ensures d < 16 && d == Unhex(c)
  {
    if c > 127 then 0 else if IsNum(c) then c - '0' as int else Lower(c) - 'a' as int + 10
  }

  /** The table knows exactly these digits. */
  lemma UnhexExact(c: byte)
    ensures Unhex(c) != -1 <==> IsSizeOctet(c)
  {
  }

  /** The number written by digits `s` after a number `a`. */
  function HexFrom(a: nat, s: seq<byte>): (n: nat)
    requires IsSizeText(s)
    ensures n >= a
    decreases |s|
  {
    if s == [] then a else HexFrom(a * 16 + Digit(s[0]), s[1..])
  }

  /** The largest accumulator to which another digit is accepted. */
  const SIZE_LIMIT: nat := (ULLONG_MAX - 16) / 16

  /** All digits but the last leave a number within the limit. */
  predicate SizeFits(a: nat, s: seq<byte>)
    requires IsSizeText(s)
  {
    s == [] || HexFrom(a, s[..|s| - 1]) <= SIZE_LIMIT
  }

  lemma ActInSize(st: Parser, ch: byte)
    requires st.errno == OK && st.state == ChunkSize
    ensures Act(st, ch) == ActChunkSize(st, ch)
  {
    hide Lawful, ActChunkSize;
  }

  lemma NoWrap(a: nat, d: nat)
    requires a <= SIZE_LIMIT && d < 16
    ensures (a * 16 + d) % (ULLONG_MAX + 1) == a * 16 + d
  {
  }

  lemma ActDigit(st: Parser, ch: byte)
    requires st.errno == OK && st.state == ChunkSize && IsSizeOctet(ch)
    ensures Act(st, ch) == if st.contentLength <= SIZE_LIMIT then
                             Effect(st.(contentLength := st.contentLength * 16 + Digit(ch)), Nothing, Consume)
                           else Fail(st, INVALID_CONTENT_LENGTH)
  {
    hide Lawful, Act, Unhex, Digit;
    ActInSize(st, ch);
    assert ch != CR && Unhex(ch) == Digit(ch);
    if st.contentLength <= SIZE_LIMIT {
      NoWrap(st.contentLength, Digit(ch));
    }
  }

  /** The machine after `n` header octets that changed only the parser to `st`. */
  function Counted(m: Machine, st: Parser, n: nat): Machine {
    m.(st := st.(nread := m.st.nread + n), consumed := m.consumed + n)
  }

  lemma StepCounted(m: Machine, ch: byte, e: Effect)
    requires Alive(m) && ParsingHeader(m.st.state) && m.st.nread < MAX_HEADER_SIZE && m.mark == Closed
    requires e == Act(Count(m.st), ch) && e.next == Consume && e.out == Nothing
    ensures ByteStep(m, ch) == m.(st := e.st, consumed := if e.st.errno == OK then m.consumed + 1 else m.consumed)
  {
    hide Act, Dispatch;
    CountHeader(m.st);
    StepConsume(m, ch, e);
  }

  lemma StepDigit(m: Machine, ch: byte)
    requires Alive(m) && m.st.state == ChunkSize && m.mark == Closed && IsSizeOctet(ch) && m.st.nread < MAX_HEADER_SIZE
    ensures if m.st.contentLength <= SIZE_LIMIT then
              ByteStep(m, ch) == Counted(m, m.st.(contentLength := m.st.contentLength * 16 + Digit(ch)), 1)
            else ByteStep(m, ch).st.errno == INVALID_CONTENT_LENGTH
  {
    hide Act, ByteStep, IsSizeOctet, Digit;
    CountHeader(m.st);
    ActDigit(Count(m.st), ch);
    StepCounted(m, ch, Act(Count(m.st), ch));
  }

  lemma SizeFitsStep(a: nat, s: seq<byte>)
    requires IsSizeText(s) && s != []
    ensures SizeFits(a, s) <==> a <= SIZE_LIMIT && SizeFits(a * 16 + Digit(s[0]), s[1..])
    ensures SizeFits(a, s) && s[1..] == [] ==> HexFrom(a, s) < ULLONG_MAX
  {
    hide IsSizeOctet, Digit;
    if s[1..] == [] {
      assert s[..|s| - 1] == [];
    } else {
      var init := s[..|s| - 1];
      assert init[0] == s[0] && init[1..] == s[1..][..|s[1..]| - 1];
    }
  }

  /** The size accumulator is exact, and fails exactly when a digit is added to a number over the
      limit: never by wrapping around 2^64, and never by colliding with the sentinel. */
  lemma {:induction false} RunDigits(m: Machine, s: seq<byte>)
    requires Alive(m) && m.st.state == ChunkSize && m.mark == Closed
    requires IsSizeText(s) && m.st.nread + |s| <= MAX_HEADER_SIZE
    ensures if SizeFits(m.st.contentLength, s) then
              Run(m, s) == Counted(m, m.st.(contentLength := HexFrom(m.st.contentLength, s)), |s|)
              && (s != [] ==> HexFrom(m.st.contentLength, s) < ULLONG_MAX)
            else Run(m, s).st.errno == INVALID_CONTENT_LENGTH
    decreases |s|
  {
    hide Act, ByteStep, IsSizeOctet, Digit, SizeFits;
    if s == [] {
      assert SizeFits(m.st.contentLength, s) by { SizeFitsNone(m.st.contentLength); }
    } else {
      StepDigit(m, s[0]);
      SizeFitsStep(m.st.contentLength, s);
      if m.st.contentLength <= SIZE_LIMIT {
        RunDigits(ByteStep(m, s[0]), s[1..]);
      } else {
        RunStopped(ByteStep(m, s[0]), s[1..]);
      }
    }
  }

  lemma SizeFitsNone(a: nat)
    ensures SizeFits(a, [])
  {
  }

  lemma {:induction false} HexPrefix(a: nat, s: seq<byte>)
    requires IsSizeText(s) && s != []
    ensures HexFrom(a, s[..|s| - 1]) * 16 <= HexFrom(a, s)
    decreases |s|
  {
    hide IsSizeOctet, Digit;
    if |s| == 1 {
      assert s[..|s| - 1] == [];
    } else {
      var init := s[..|s| - 1];
      assert init[0] == s[0] && init[1..] == s[1..][..|s[1..]| - 1];
      HexPrefix(a * 16 + Digit(s[0]), s[1..]);
    }
  }

  /** A chunk shorter than 2^64 - 16 has an acceptable size, however many leading zeros it has. */
  lemma SizeFitsSmall(s: seq<byte>)
    requires IsSizeText(s) && HexFrom(0, s) <= ULLONG_MAX - 16
    ensures SizeFits(0, s)
  {
    if s != [] {
      HexPrefix(0, s);
    }
  }

  // ---------- the size line ----------

  /** A chunk as a sender writes it: size text, optional extension, data. */
  datatype Chunk = Chunk(size: seq<byte>, extension: seq<byte>, data: seq<byte>)

  /** What the extension of a size line may look like to this parser: empty, or a ';' or a space
      followed by anything but CR. */
  predicate IsExtension(x: seq<byte>) {
    x == [] || ((x[0] == ';' as int || x[0] == SP) && forall i :: 0 < i < |x| ==> x[i] != CR)
  }

  predicate IsSizeLine(size: seq<byte>, x: seq<byte>) {
    size != [] && IsSizeText(size) && IsExtension(x) && |size| + |x| + 2 <= MAX_HEADER_SIZE
  }

  function SizeLine(size: seq<byte>, x: seq<byte>): seq<byte> {
    size + x + CRLF
  }

  /** The parser waits for a chunk. */
  predicate AtChunk(m: Machine) {
    Alive(m) && m.st.state == ChunkSizeStart && m.st.nread == 0 && m.mark == Closed
  }

  lemma ActSizeStart(st: Parser, ch: byte)
    requires st.errno == OK && st.state == ChunkSizeStart && IsSizeOctet(ch)
    ensures Act(st, ch) == Effect(st.(contentLength := Digit(ch), state := ChunkSize), Nothing, Consume)
  {
    hide Lawful;
  }

  lemma ActSizeEnd(st: Parser, ch: byte)
    requires st.errno == OK && st.state == ChunkSize && (ch == CR || ch == SP || ch == ';' as int)
    ensures Act(st, ch) == Effect(st.(state := if ch == CR then ChunkSizeAlmostDone else ChunkParameters), Nothing, Consume)
  {
    hide Lawful;
  }

  lemma ActParameters(st: Parser, ch: byte)
    requires st.errno == OK && st.state == ChunkParameters
    ensures Act(st, ch) == Effect(st.(state := if ch == CR then ChunkSizeAlmostDone else ChunkParameters), Nothing, Consume)
  {
    hide Lawful;
  }

  /** The parser after a size line: ready for the data, or for the trailer after size 0. */
  function SizeRead(st: Parser): Parser {
    st.(nread := 0,
        flags := if st.contentLength == 0 then st.flags.(trailing := true) else st.flags,
        state := if st.contentLength == 0 then HeaderFieldStart else ChunkData)
  }

  lemma ActSizeLf(st: Parser)
    requires st.errno == OK && st.state == ChunkSizeAlmostDone
    ensures Act(st, LF) == Effect(SizeRead(st), Notify(ChunkHeader(st.contentLength)), Consume)
  {
    hide Lawful;
  }

  lemma StepSizeFirst(m: Machine, ch: byte)
    requires AtChunk(m) && IsSizeOctet(ch)
    ensures ByteStep(m, ch) == InSize(m, Digit(ch), 1)
  {
    hide Act, ByteStep, IsSizeOctet, Digit;
    CountHeader(m.st);
    ActSizeStart(Count(m.st), ch);
    StepCounted(m, ch, Act(Count(m.st), ch));
  }

  /** The machine inside a size, `n` octets after the machine `m` that waits for a chunk. */
  function InSize(m: Machine, size: nat, n: nat): Machine {
    Counted(m, m.st.(contentLength := size, state := ChunkSize), n)
  }

  lemma InSizeFacts(m: Machine, size: nat, n: nat)
    requires AtChunk(m)
    ensures var r := InSize(m, size, n);
      && Alive(r) && r.st.state == ChunkSize && r.mark == Closed && r.st.nread == n && r.st.contentLength == size
      && forall t: nat, k: nat :: Counted(r, r.st.(contentLength := t), k) == InSize(m, t, n + k)
  {
  }

  lemma HexFirst(s: seq<byte>)
    requires s != [] && IsSizeText(s)
    ensures HexFrom(0, s) == HexFrom(Digit(s[0]), s[1..])
    ensures SizeFits(0, s) <==> SizeFits(Digit(s[0]), s[1..])
  {
    hide IsSizeOctet, Digit, SizeFits;
    SizeFitsStep(0, s);
    assert 0 * 16 + Digit(s[0]) == Digit(s[0]);
  }

  lemma RunSize(m: Machine, s: seq<byte>)
    requires AtChunk(m) && s != [] && IsSizeText(s) && |s| <= MAX_HEADER_SIZE && SizeFits(0, s)
    ensures Run(m, s) == InSize(m, HexFrom(0, s), |s|)
  {
    hide Act, ByteStep, IsSizeOctet, Digit, SizeFits, HexFrom, Counted, InSize, AtChunk;
    StepSizeFirst(m, s[0]);
    HexFirst(s);
    InSizeFacts(m, Digit(s[0]), 1);
    RunDigits(ByteStep(m, s[0]), s[1..]);
  }

  lemma {:induction false} RunParameters(m: Machine, s: seq<byte>)
    requires Alive(m) && m.st.state == ChunkParameters && m.mark == Closed && m.st.nread + |s| <= MAX_HEADER_SIZE
    requires forall i :: 0 <= i < |s| ==> s[i] != CR
    ensures Run(m, s) == Counted(m, m.st, |s|)
    decreases |s|
  {
    hide Act, ByteStep;
    if s != [] {
      CountHeader(m.st);
      ActParameters(Count(m.st), s[0]);
      StepCounted(m, s[0], Act(Count(m.st), s[0]));
      RunParameters(ByteStep(m, s[0]), s[1..]);
    }
  }

  lemma StepSizeCr(m: Machine)
    requires Alive(m) && (m.st.state == ChunkSize || m.st.state == ChunkParameters) && m.mark == Closed
    requires m.st.nread < MAX_HEADER_SIZE
    ensures ByteStep(m, CR) == Counted(m, m.st.(state := ChunkSizeAlmostDone), 1)
  {
    hide Act, ByteStep;
    CountHeader(m.st);
    if m.st.state == ChunkSize {
      ActSizeEnd(Count(m.st), CR);
    } else {
      ActParameters(Count(m.st), CR);
    }
    StepCounted(m, CR, Act(Count(m.st), CR));
  }

  lemma StepExtension(m: Machine, ch: byte)
    requires Alive(m) && m.st.state == ChunkSize && m.mark == Closed && (ch == SP || ch == ';' as int)
    requires m.st.nread < MAX_HEADER_SIZE
    ensures ByteStep(m, ch) == Counted(m, m.st.(state := ChunkParameters), 1)
  {
    hide Act, ByteStep;
    CountHeader(m.st);
    ActSizeEnd(Count(m.st), ch);
    StepCounted(m, ch, Act(Count(m.st), ch));
  }

  lemma StepSizeLf(m: Machine)
    requires Alive(m) && m.st.state == ChunkSizeAlmostDone && m.mark == Closed && m.st.nread < MAX_HEADER_SIZE
    ensures ByteStep(m, LF) == m.(st := SizeRead(m.st), consumed := m.consumed + 1,
                                  log := m.log + [ChunkHeader(m.st.contentLength)])
  {
    hide Act, ByteStep;
    CountHeader(m.st);
    ActSizeLf(Count(m.st));
    StepConsume(m, LF, Act(Count(m.st), LF));
  }

  lemma RunExtension(m: Machine, x: seq<byte>)
    requires Alive(m) && m.st.state == ChunkSize && m.mark == Closed && IsExtension(x)
    requires m.st.nread + |x| <= MAX_HEADER_SIZE
    ensures Run(m, x) == Counted(m, m.st.(state := if x == [] then ChunkSize else ChunkParameters), |x|)
  {
    hide Act, ByteStep;
    if x != [] {
      StepExtension(m, x[0]);
      RunParameters(ByteStep(m, x[0]), x[1..]);
    }
  }

  lemma SizeReadSame(st: Parser, s: State, n: nat)
    ensures SizeRead(st.(state := s, nread := n)) == SizeRead(st)
  {
  }

  lemma StepSizeEnd(m: Machine)
    requires Alive(m) && m.mark == Closed && m.st.nread + 2 <= MAX_HEADER_SIZE
    ensures ByteStep(Counted(m, m.st.(state := ChunkSizeAlmostDone), 1), LF)
         == m.(st := SizeRead(m.st), consumed := m.consumed + 2, log := m.log + [ChunkHeader(m.st.contentLength)])
  {
    hide Act, ByteStep, SizeRead, ParsingHeader;
    StepSizeLf(Counted(m, m.st.(state := ChunkSizeAlmostDone), 1));
    SizeReadSame(m.st, ChunkSizeAlmostDone, m.st.nread + 1);
  }

  lemma RunSizeEnd(m: Machine)
    requires Alive(m) && (m.st.state == ChunkSize || m.st.state == ChunkParameters) && m.mark == Closed
    requires m.st.nread + 2 <= MAX_HEADER_SIZE
    ensures Run(m, CRLF) == m.(st := SizeRead(m.st), consumed := m.consumed + 2,
                               log := m.log + [ChunkHeader(m.st.contentLength)])
  {
    hide *;
    StepSizeCr(m);
    StepSizeEnd(m);
    RunCrlf(m);
  }

  lemma RunSizeText(m: Machine, size: seq<byte>, x: seq<byte>)
    requires AtChunk(m) && IsSizeLine(size, x) && SizeFits(0, size)
    ensures var s := if x == [] then ChunkSize else ChunkParameters;
      Run(m, size + x) == Counted(m, m.st.(contentLength := HexFrom(0, size), state := s), |size| + |x|)
  {
    hide Act, ByteStep, HexFrom, SizeFits, IsSizeOctet, IsExtension, Run;
    RunSize(m, size);
    RunExtension(Run(m, size), x);
    RunConcat(m, size, x);
  }

  /** A whole size line. */
  lemma RunSizeLine(m: Machine, size: seq<byte>, x: seq<byte>)
    requires AtChunk(m) && IsSizeLine(size, x) && SizeFits(0, size)
    ensures var n := HexFrom(0, size);
      Run(m, SizeLine(size, x)) == m.(
        st := SizeRead(m.st.(contentLength := n)), log := m.log + [ChunkHeader(n)],
        consumed := m.consumed + |SizeLine(size, x)|)
  {
    hide Act, ByteStep, HexFrom, SizeFits, IsSizeOctet, IsExtension, Run, SizeRead;
    RunSizeText(m, size, x);
    var m1 := Run(m, size + x);
    RunSizeEnd(m1);
    SizeReadSame(m.st.(contentLength := HexFrom(0, size)), m1.st.state, m1.st.nread);
    RunConcat(m, size + x, CRLF);
  }

  // ---------- which size lines are accepted ----------

  /** Text that no octet with a meaning of its own in a size line interrupts. */
  predicate IsPlain(s: seq<byte>) {
    forall i :: 0 <= i < |s| ==> s[i] != CR && s[i] != SP && s[i] != ';' as int
  }

  lemma ActNoDigit(st: Parser, ch: byte)
    requires st.errno == OK && !IsSizeOctet(ch)
    ensures st.state == ChunkSizeStart ==> Act(st, ch) == Fail(st, INVALID_CHUNK_SIZE)
    ensures st.state == ChunkSize && ch != CR && ch != SP && ch != ';' as int ==> Act(st, ch) == Fail(st, INVALID_CHUNK_SIZE)
  {
    hide Lawful, IsSizeOctet, Unhex;
    UnhexExact(ch);
  }

  lemma StepNoDigit(m: Machine, ch: byte)
    requires Alive(m) && m.mark == Closed && m.st.nread < MAX_HEADER_SIZE && !IsSizeOctet(ch)
    requires m.st.state == ChunkSizeStart || (m.st.state == ChunkSize && ch != CR && ch != SP && ch != ';' as int)
    ensures ByteStep(m, ch).st.errno == INVALID_CHUNK_SIZE
  {
    hide Act, ByteStep, IsSizeOctet;
    CountHeader(m.st);
    ActNoDigit(Count(m.st), ch);
    StepCounted(m, ch, Act(Count(m.st), ch));
  }

  /** A size with an octet that is no digit is an error, whatever follows. */
  lemma {:induction false} RunNoDigits(m: Machine, s: seq<byte>)
    requires Alive(m) && m.st.state == ChunkSize && m.mark == Closed && m.st.nread + |s| <= MAX_HEADER_SIZE
    requires IsPlain(s) && !IsSizeText(s)
    ensures Run(m, s).st.errno != OK
    decreases |s|
  {
    hide Act, ByteStep, IsSizeOctet, Digit;
    if !IsSizeOctet(s[0]) {
      StepNoDigit(m, s[0]);
      RunStopped(ByteStep(m, s[0]), s[1..]);
    } else {
      StepDigit(m, s[0]);
      if m.st.contentLength <= SIZE_LIMIT {
        RunNoDigits(ByteStep(m, s[0]), s[1..]);
      } else {
        RunStopped(ByteStep(m, s[0]), s[1..]);
      }
    }
  }

  lemma RunSizeRejected(m: Machine, s: seq<byte>)
    requires AtChunk(m) && IsPlain(s) && s != [] && |s| <= MAX_HEADER_SIZE
    requires IsSizeText(s) ==> !SizeFits(0, s)
    ensures Run(m, s).st.errno != OK
  {
    hide Act, ByteStep, IsSizeOctet, Digit, SizeFits;
    if !IsSizeOctet(s[0]) {
      StepNoDigit(m, s[0]);
      RunStopped(ByteStep(m, s[0]), s[1..]);
    } else {
      StepSizeFirst(m, s[0]);
      if IsSizeText(s) {
        SizeFitsStep(0, s);
        RunDigits(ByteStep(m, s[0]), s[1..]);
      } else {
        RunNoDigits(ByteStep(m, s[0]), s[1..]);
      }
    }
  }

  /** Octets above 127 as the table reads them. */
  function ReadAs(s: seq<byte>): (r: seq<byte>)
    ensures |r| == |s| && forall i :: 0 <= i < |s| ==> r[i] == if s[i] > 127 then '0' as int else s[i]
  {
    seq(|s|, i requires 0 <= i < |s| => if s[i] > 127 then '0' as int else s[i])
  }

  lemma {:induction false} ReadAsZero(a: nat, s: seq<byte>)
    requires IsSizeText(s)
    ensures IsHexText(ReadAs(s)) && HexFrom(a, s) == HexFrom(a, ReadAs(s))
    decreases |s|
  {
    if s != [] {
      ReadAsZero(a * 16 + Digit(s[0]), s[1..]);
      assert ReadAs(s)[1..] == ReadAs(s[1..]);
    }
  }

  predicate SizeAccepted(s: seq<byte>) {
    s != [] && IsSizeText(s) && SizeFits(0, s)
  }

  /** Exactly the size lines that are accepted: the size must be one or more digits in the sense of the
      table and fit the limit. The size announced is that of the text with '0' for every octet above 127,
      so that an accepted size is the hexadecimal number of RFC 7230 exactly if it has no such octet. */
  lemma SizeLineExact(m: Machine, s: seq<byte>, x: seq<byte>)
    requires AtChunk(m) && IsPlain(s) && IsExtension(x) && |s| + |x| + 2 <= MAX_HEADER_SIZE
    ensures var r := Run(m, SizeLine(s, x));
      && (r.st.errno == OK <==> SizeAccepted(s))
      && (SizeAccepted(s) ==> IsHexText(ReadAs(s)) && r.log == m.log + [ChunkHeader(HexFrom(0, ReadAs(s)))])
      && (SizeAccepted(s) ==> (IsHexText(s) <==> forall i :: 0 <= i < |s| ==> s[i] <= 127))
  {
    hide Act, ByteStep, HexFrom, SizeFits, IsExtension, Run, IsHex;
    assert SizeLine(s, x) == s + (x + CRLF);
    RunConcat(m, s, x + CRLF);
    if SizeAccepted(s) {
      RunSizeLine(m, s, x);
      ReadAsZero(0, s);
      HighNotHex(s);
    } else if s == [] {
      RunSizeMissing(m, x);
      assert s + (x + CRLF) == x + CRLF;
    } else {
      RunSizeRejected(m, s);
      RunStopped(Run(m, s), x + CRLF);
    }
  }

  lemma HighNotHex(s: seq<byte>)
    requires IsSizeText(s)
    ensures IsHexText(s) <==> forall i :: 0 <= i < |s| ==> s[i] <= 127
  {
  }

  lemma RunSizeMissing(m: Machine, x: seq<byte>)
    requires AtChunk(m) && IsExtension(x)
    ensures Run(m, x + CRLF).st.errno != OK
  {
    hide Act, ByteStep;
    var t := x + CRLF;
    assert t[0] == CR || t[0] == SP || t[0] == ';' as int;
    StepNoDigit(m, t[0]);
    RunStopped(ByteStep(m, t[0]), t[1..]);
  }

  // ---------- the data ----------

  /** The parser after the data of a chunk and its CRLF. */
  function ChunkRead(st: Parser): Parser {
    st.(contentLength := 0, nread := 0, state := ChunkSizeStart)
  }

  lemma ActDataCr(st: Parser)
    requires st.errno == OK && st.state == ChunkDataAlmostDone
    ensures Act(st, CR) == Effect(st.(state := ChunkDataDone), Close, Consume)
  {
    hide Lawful;
  }

  lemma ActDataLf(st: Parser)
    requires st.errno == OK && st.state == ChunkDataDone
    ensures Act(st, LF) == Effect(st.(nread := 0, state := ChunkSizeStart), Notify(ChunkComplete), Consume)
  {
    hide Lawful;
  }

  lemma StepDataCr(m: Machine)
    requires Alive(m) && m.st.state == ChunkDataAlmostDone && m.mark.Opened?
    ensures ByteStep(m, CR) == m.(st := m.st.(state := ChunkDataDone), consumed := m.consumed + 1, mark := Closed,
                                  log := m.log + [Data(m.mark.part, m.mark.bytes)])
  {
    hide Act, ByteStep;
    ActDataCr(m.st);
    StepConsume(m, CR, Act(m.st, CR));
  }

  lemma StepDataLf(m: Machine)
    requires Alive(m) && m.st.state == ChunkDataDone && m.mark == Closed
    ensures ByteStep(m, LF) == m.(st := m.st.(nread := 0, state := ChunkSizeStart), consumed := m.consumed + 1,
                                  log := m.log + [ChunkComplete])
  {
    hide Act, ByteStep;
    ActDataLf(m.st);
    StepConsume(m, LF, Act(m.st, LF));
  }

  lemma RunDataEnd(m: Machine)
    requires Alive(m) && m.st.state == ChunkDataAlmostDone && m.mark.Opened?
    ensures Run(m, CRLF) == m.(st := m.st.(nread := 0, state := ChunkSizeStart), consumed := m.consumed + 2, mark := Closed,
                               log := m.log + [Data(m.mark.part, m.mark.bytes), ChunkComplete])
  {
    hide Act, ByteStep, Run;
    StepDataCr(m);
    StepDataLf(ByteStep(m, CR));
    RunTwo(m, CR, LF);
    assert m.log + [Data(m.mark.part, m.mark.bytes)] + [ChunkComplete]
        == m.log + [Data(m.mark.part, m.mark.bytes), ChunkComplete];
  }

  /** The machine that has all the data of a chunk under its mark. */
  lemma RunAllData(m: Machine, data: seq<byte>)
    requires Alive(m) && m.st.state == ChunkData && m.mark == Closed
    requires 0 < |data| == m.st.contentLength < ULLONG_MAX
    ensures Run(m, data) == m.(st := m.st.(contentLength := 0, state := ChunkDataAlmostDone),
                               consumed := m.consumed + |data|, mark := Opened(Body, data))
  {
    hide Act, ByteStep, Run;
    RunChunkData(m, data);
    assert [] + data == data;
  }

  lemma RunData(m: Machine, data: seq<byte>)
    requires Alive(m) && m.st.state == ChunkData && m.mark == Closed
    requires 0 < |data| == m.st.contentLength < ULLONG_MAX
    ensures Run(m, data + CRLF) == m.(st := ChunkRead(m.st), consumed := m.consumed + |data| + 2,
                                      log := m.log + [Data(Body, data), ChunkComplete])
  {
    hide Act, ByteStep, Run;
    RunAllData(m, data);
    RunDataEnd(Run(m, data));
    RunConcat(m, data, CRLF);
  }

  // ---------- chunks ----------

  predicate IsChunk(c: Chunk) {
    && IsSizeLine(c.size, c.extension) && c.data != []
    && HexFrom(0, c.size) == |c.data| <= ULLONG_MAX - 16
  }

  function EncodeChunk(c: Chunk): seq<byte> {
    SizeLine(c.size, c.extension) + (c.data + CRLF)
  }

  function ChunkEvents(c: Chunk): seq<Event> {
    [ChunkHeader(|c.data|), Data(Body, c.data), ChunkComplete]
  }

  lemma RunChunk(m: Machine, c: Chunk)
    requires AtChunk(m) && IsChunk(c)
    ensures Run(m, EncodeChunk(c)) == m.(st := ChunkRead(m.st), consumed := m.consumed + |EncodeChunk(c)|,
                                         log := m.log + ChunkEvents(c))
  {
    hide Act, ByteStep, Run, HexFrom, SizeLine, IsSizeText, SizeFits;
    SizeFitsSmall(c.size);
    RunSizeLine(m, c.size, c.extension);
    var m1 := Run(m, SizeLine(c.size, c.extension));
    RunData(m1, c.data);
    RunConcat(m, SizeLine(c.size, c.extension), c.data + CRLF);
    assert m.log + [ChunkHeader(|c.data|)] + [Data(Body, c.data), ChunkComplete] == m.log + ChunkEvents(c);
  }

  function EncodeChunks(cs: seq<Chunk>): seq<byte> {
    if cs == [] then [] else EncodeChunk(cs[0]) + EncodeChunks(cs[1..])
  }

  function ChunksEvents(cs: seq<Chunk>): seq<Event> {
    if cs == [] then [] else ChunkEvents(cs[0]) + ChunksEvents(cs[1..])
  }

  lemma {:induction false} RunChunks(m: Machine, cs: seq<Chunk>)
    requires AtChunk(m) && forall i :: 0 <= i < |cs| ==> IsChunk(cs[i])
    ensures Run(m, EncodeChunks(cs)) == m.(
      st := if cs == [] then m.st else ChunkRead(m.st),
      consumed := m.consumed + |EncodeChunks(cs)|, log := m.log + ChunksEvents(cs))
    decreases |cs|
  {
    hide Act, ByteStep, EncodeChunk, IsChunk, ChunkEvents;
    if cs != [] {
      RunChunk(m, cs[0]);
      RunChunks(Run(m, EncodeChunk(cs[0])), cs[1..]);
      RunConcat(m, EncodeChunk(cs[0]), EncodeChunks(cs[1..]));
      assert m.log + ChunkEvents(cs[0]) + ChunksEvents(cs[1..]) == m.log + ChunksEvents(cs);
    }
  }

  // ---------- the last chunk ----------

  lemma ActTrailerCr(st: Parser)
    requires st.errno == OK && st.state == HeaderFieldStart
    ensures Act(st, CR) == Effect(st.(state := HeadersAlmostDone), Nothing, Consume)
  {
    hide Lawful;
  }

  lemma ActTrailerLf(st: Parser)
    requires st.errno == OK && st.state == HeadersAlmostDone && st.flags.trailing
    ensures Act(st, LF) == Effect(st.(state := MessageDone), Notify(ChunkComplete), Again)
  {
    hide Lawful;
  }

  lemma StepTrailerCr(m: Machine)
    requires Alive(m) && m.st.state == HeaderFieldStart && m.mark == Closed && m.st.nread < MAX_HEADER_SIZE
    ensures ByteStep(m, CR) == Counted(m, m.st.(state := HeadersAlmostDone), 1)
  {
    hide Act, ByteStep;
    CountHeader(m.st);
    ActTrailerCr(Count(m.st));
    StepCounted(m, CR, Act(Count(m.st), CR));
  }

  lemma DispatchMessageDone(m: Machine, ch: byte)
    requires m.st.errno == OK && m.st.state == MessageDone
    ensures Dispatch(m, ch) == m.(st := m.st.(state := NewMessage(m.st)), exited := m.st.upgrade,
                                  log := m.log + [MessageComplete])
  {
    hide Act, NewMessage, Dispatch;
    ActMessageDone(m.st, ch);
    DispatchOnce(m, ch, Act(m.st, ch));
  }

  lemma DispatchTrailerLf(m: Machine)
    requires m.st.errno == OK && m.st.state == HeadersAlmostDone && m.st.flags.trailing
    ensures Dispatch(m, LF) == m.(st := Completed(m.st), exited := m.st.upgrade,
                                  log := m.log + [ChunkComplete, MessageComplete])
  {
    hide Act, NewMessage, Dispatch;
    ActTrailerLf(m.st);
    DispatchOnce(m, LF, Act(m.st, LF));
    DispatchMessageDone(m.(st := m.st.(state := MessageDone), log := m.log + [ChunkComplete]), LF);
    assert m.log + [ChunkComplete] + [MessageComplete] == m.log + [ChunkComplete, MessageComplete];
  }

  /** NEW_MESSAGE() from `s_message_done`. */
  function Completed(st: Parser): Parser {
    st.(state := NewMessage(st.(state := MessageDone)))
  }

  lemma StepTrailerLf(m: Machine)
    requires Alive(m) && m.st.state == HeadersAlmostDone && m.st.flags.trailing && m.mark == Closed
    requires m.st.nread < MAX_HEADER_SIZE
    ensures var st := m.st.(nread := m.st.nread + 1);
      ByteStep(m, LF) == m.(st := Completed(st), exited := m.st.upgrade, consumed := m.consumed + 1,
                            log := m.log + [ChunkComplete, MessageComplete])
  {
    hide Act, Dispatch, Completed;
    CountHeader(m.st);
    DispatchTrailerLf(m.(st := Count(m.st)));
    CompletedErrno(Count(m.st));
  }

  lemma CompletedErrno(st: Parser)
    ensures Completed(st).errno == st.errno
  {
  }

  /** The parser after the blank line that ends a trailer, and with it the message. */
  function TrailerRead(st: Parser): Parser {
    Completed(st.(nread := st.nread + 2, state := HeadersAlmostDone))
  }

  lemma RunTrailer(m: Machine)
    requires Alive(m) && m.st.state == HeaderFieldStart && m.st.flags.trailing && m.mark == Closed
    requires m.st.nread + 2 <= MAX_HEADER_SIZE
    ensures Run(m, CRLF) == m.(st := TrailerRead(m.st), consumed := m.consumed + 2, exited := m.st.upgrade,
                               log := m.log + [ChunkComplete, MessageComplete])
  {
    hide Act, Run, ByteStep, Completed;
    StepTrailerCr(m);
    StepTrailerLf(ByteStep(m, CR));
    RunTwo(m, CR, LF);
  }

  /** The chunk of size 0, written with any number of zeros. */
  predicate IsLast(size: seq<byte>, x: seq<byte>) {
    IsSizeLine(size, x) && HexFrom(0, size) == 0
  }

  /** A chunked body: the chunks, the last chunk and an empty trailer. */
  function EncodeBody(cs: seq<Chunk>, size: seq<byte>, x: seq<byte>): seq<byte> {
    EncodeChunks(cs) + (SizeLine(size, x) + CRLF)
  }

  /** The parser at the end of a chunked message. */
  function ChunkedOver(st: Parser): Parser {
    TrailerRead(SizeRead(st.(contentLength := 0)))
  }

  lemma RunLast(m: Machine, size: seq<byte>, x: seq<byte>)
    requires AtChunk(m) && IsLast(size, x)
    ensures Run(m, SizeLine(size, x) + CRLF) == m.(
      st := ChunkedOver(m.st), consumed := m.consumed + |SizeLine(size, x)| + 2, exited := m.st.upgrade,
      log := m.log + [ChunkHeader(0), ChunkComplete, MessageComplete])
  {
    hide Act, ByteStep, Run, HexFrom, SizeLine, IsSizeText, SizeFits, TrailerRead;
    SizeFitsSmall(size);
    RunSizeLine(m, size, x);
    var m1 := Run(m, SizeLine(size, x));
    RunTrailer(m1);
    RunConcat(m, SizeLine(size, x), CRLF);
    assert m.log + [ChunkHeader(0)] + [ChunkComplete, MessageComplete]
        == m.log + [ChunkHeader(0), ChunkComplete, MessageComplete];
  }

  /** The quirk of the table at work: a size line that holds one octet above 127 ends the body, and with
      the next empty line the message, although RFC 7230 has no such size. */
  lemma HighOctetEnds(m: Machine, ch: byte)
    requires AtChunk(m) && ch > 127
    ensures !IsHexText([ch])
    ensures var r := Run(m, [ch] + CRLF);
      r.st.errno == OK && r.st.flags.trailing && r.st.state == HeaderFieldStart && r.log == m.log + [ChunkHeader(0)]
    ensures Run(m, [ch] + CRLF + CRLF).log == m.log + [ChunkHeader(0), ChunkComplete, MessageComplete]
  {
    hide Act, ByteStep, Run, ChunkedOver;
    HighIsLast(ch);
    assert [ch] + [] == [ch];
    SizeFitsSmall([ch]);
    RunSizeLine(m, [ch], []);
    RunLast(m, [ch], []);
    assert SizeLine([ch], []) + CRLF == [ch] + CRLF + CRLF;
  }

  lemma HighIsLast(ch: byte)
    requires ch > 127
    ensures IsLast([ch], [])
  {
    assert IsExtension([]);
    assert HexFrom(0, [ch]) == HexFrom(Digit(ch), []) by { assert [ch][1..] == []; }
  }

  function BodyEvents(cs: seq<Chunk>): seq<Event> {
    ChunksEvents(cs) + [ChunkHeader(0), ChunkComplete, MessageComplete]
  }

  /** Decoding inverts encoding: every octet is consumed, and the callbacks are exactly those that
      the chunks call for, in order, ending with one message_complete. */
  lemma ChunkedRoundTrip(m: Machine, cs: seq<Chunk>, size: seq<byte>, x: seq<byte>)
    requires AtChunk(m) && IsLast(size, x) && forall i :: 0 <= i < |cs| ==> IsChunk(cs[i])
    ensures Run(m, EncodeBody(cs, size, x)) == m.(
      st := ChunkedOver(m.st), exited := m.st.upgrade,
      consumed := m.consumed + |EncodeBody(cs, size, x)|, log := m.log + BodyEvents(cs))
  {
    hide Act, ByteStep, Run, IsChunk, IsLast, ChunksEvents, EncodeChunks, SizeLine, ChunkedOver;
    RunChunks(m, cs);
    var m1 := Run(m, EncodeChunks(cs));
    RunLast(m1, size, x);
    RunConcat(m, EncodeChunks(cs), SizeLine(size, x) + CRLF);
    ChunkedOverSame(m.st);
    assert m.log + ChunksEvents(cs) + [ChunkHeader(0), ChunkComplete, MessageComplete] == m.log + BodyEvents(cs);
  }

  lemma ChunkedOverSame(st: Parser)
    ensures ChunkedOver(ChunkRead(st)) == ChunkedOver(st)
  {
  }

  // ---------- what the user receives ----------

  /** The octets handed to on_body, in order. */
  function BodyOf(log: seq<Event>): seq<byte> {
    if log == [] then []
    else (if log[0].Data? && log[0].part == Body then log[0].bytes else []) + BodyOf(log[1..])
  }

  function CountOf(log: seq<Event>, e: Event): nat {
    if log == [] then 0 else (if log[0] == e then 1 else 0) + CountOf(log[1..], e)
  }

  function DataOf(cs: seq<Chunk>): seq<byte> {
    if cs == [] then [] else cs[0].data + DataOf(cs[1..])
  }

  lemma {:induction false} LogConcat(a: seq<Event>, b: seq<Event>, e: Event)
    ensures BodyOf(a + b) == BodyOf(a) + BodyOf(b) && CountOf(a + b, e) == CountOf(a, e) + CountOf(b, e)
    decreases |a|
  {
    if a == [] {
      assert a + b == b;
    } else {
      assert (a + b)[0] == a[0] && (a + b)[1..] == a[1..] + b;
      LogConcat(a[1..], b, e);
    }
  }

  lemma OneEvent(e: Event, f: Event)
    ensures BodyOf([e]) == (if e.Data? && e.part == Body then e.bytes else [])
    ensures CountOf([e], f) == if e == f then 1 else 0
  {
    assert [e][1..] == [];
  }

  lemma ThreeEvents(a: Event, b: Event, c: Event, e: Event)
    ensures BodyOf([a, b, c]) == BodyOf([a]) + BodyOf([b]) + BodyOf([c])
    ensures CountOf([a, b, c], e) == CountOf([a], e) + CountOf([b], e) + CountOf([c], e)
  {
    assert [a, b, c] == [a] + ([b] + [c]);
    LogConcat([a], [b] + [c], e);
    LogConcat([b], [c], e);
  }

  lemma ChunkDelivers(c: Chunk)
    ensures BodyOf(ChunkEvents(c)) == c.data && CountOf(ChunkEvents(c), MessageComplete) == 0
  {
    hide BodyOf, CountOf;
    ThreeEvents(ChunkHeader(|c.data|), Data(Body, c.data), ChunkComplete, MessageComplete);
    OneEvent(ChunkHeader(|c.data|), MessageComplete);
    OneEvent(Data(Body, c.data), MessageComplete);
    OneEvent(ChunkComplete, MessageComplete);
  }

  lemma LastDelivers()
    ensures BodyOf(BodyEvents([])) == [] && CountOf(BodyEvents([]), MessageComplete) == 1
  {
    hide BodyOf, CountOf;
    ThreeEvents(ChunkHeader(0), ChunkComplete, MessageComplete, MessageComplete);
    OneEvent(ChunkHeader(0), MessageComplete);
    OneEvent(ChunkComplete, MessageComplete);
    OneEvent(MessageComplete, MessageComplete);
    assert BodyEvents([]) == [ChunkHeader(0), ChunkComplete, MessageComplete];
  }

  /** The user gets the concatenation of the chunks, and exactly one message_complete. */
  lemma {:induction false} ChunkedDelivers(cs: seq<Chunk>)
    ensures BodyOf(BodyEvents(cs)) == DataOf(cs) && CountOf(BodyEvents(cs), MessageComplete) == 1
    decreases |cs|
  {
    hide BodyOf, CountOf, ChunkEvents;
    if cs == [] {
      LastDelivers();
    } else {
      ChunkedDelivers(cs[1..]);
      ChunkDelivers(cs[0]);
      LogConcat(ChunkEvents(cs[0]), BodyEvents(cs[1..]), MessageComplete);
      assert BodyEvents(cs) == ChunkEvents(cs[0]) + BodyEvents(cs[1..]);
    }
  }
}
