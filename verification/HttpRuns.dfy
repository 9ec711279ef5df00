/** Closed forms for runs of octets that the source skips over in one go: header names, header
    values and bodies. */
module HttpRuns {
  import opened Bytes
  import opened HttpTypes
  import opened HttpAct
  import opened HttpMachine

  // ---------- one octet in a known state ----------

  lemma StepConsume(m: Machine, ch: byte, e: Effect)
    requires Alive(m) && Count(m.st).errno == OK
    requires e == Act(Count(m.st), ch) && e.next == Consume
    ensures ByteStep(m, ch) == Advance(Perform(m, e.out, ch).(st := e.st), ch)
  {
    hide Act, Advance, Count;
  }

  lemma DispatchOnce(m: Machine, ch: byte, e: Effect)
    requires m.st.errno == OK && e == Act(m.st, ch)
    ensures Dispatch(m, ch) ==
      var m' := Perform(m, e.out, ch).(st := e.st);
      if e.next == Again then Dispatch(m', ch) else m'.(exited := e.next == Exit)
  {
    hide Act;
  }

  lemma StepUncounted(m: Machine, ch: byte)
    requires Alive(m) && !ParsingHeader(m.st.state)
    ensures ByteStep(m, ch) == Advance(Dispatch(m, ch), ch)
  {
    hide Dispatch, Advance;
  }

  lemma StepCounting(m: Machine, ch: byte)
    requires Alive(m) && Count(m.st).errno == OK
    ensures ByteStep(m, ch) == Advance(Dispatch(m.(st := Count(m.st)), ch), ch)
  {
    hide Dispatch, Advance, Count;
  }

  lemma StepOverflow(m: Machine, ch: byte)
    requires Alive(m) && ParsingHeader(m.st.state) && m.st.nread >= MAX_HEADER_SIZE
    ensures ByteStep(m, ch) == m.(st := Count(m.st)) && Count(m.st).errno == HEADER_OVERFLOW
  {
    hide Dispatch, Advance;
  }

  /** A run of octets overflowed the header limit somewhere, with no callback on the way. */
  predicate Overflowed(m: Machine, s: seq<byte>, r: Machine) {
    r.st.errno == HEADER_OVERFLOW && r.log == m.log && m.consumed <= r.consumed < m.consumed + |s|
  }

  lemma CountHeader(st: Parser)
    requires ParsingHeader(st.state) && st.nread < MAX_HEADER_SIZE
    ensures Count(st) == st.(nread := st.nread + 1)
  {
  }

  // ---------- header names ----------

  predicate AllTokens(s: seq<byte>) {
    forall i :: 0 <= i < |s| ==> Token(s[i]) != 0
  }

  function NameSteps(n: NameScan, s: seq<byte>): NameScan
    decreases |s|
  {
    if s == [] then n else NameSteps(NameStep(n, s[0]), s[1..])
  }

  lemma {:induction false} NameStepsConcat(n: NameScan, a: seq<byte>, b: seq<byte>)
    ensures NameSteps(n, a + b) == NameSteps(NameSteps(n, a), b)
    decreases |a|
  {
    if a == [] {
      assert a + b == b;
    } else {
      assert (a + b)[0] == a[0] && (a + b)[1..] == a[1..] + b;
      NameStepsConcat(NameStep(n, a[0]), a[1..], b);
    }
  }

  lemma ActName(st: Parser, ch: byte)
    requires st.errno == OK && st.state == HeaderField && Token(ch) != 0
    ensures Act(st, ch) == Effect(WithName(st, NameStep(NameOf(st), ch)), Nothing, Consume)
  {
    hide Lawful, NameStep, Token;
  }

  /** The parser after the name octets `s`. */
  function NamedBy(st: Parser, s: seq<byte>): Parser {
    WithName(st, NameSteps(NameOf(st), s)).(nread := st.nread + |s|)
  }

  lemma StepName(m: Machine, ch: byte)
    requires Alive(m) && m.st.state == HeaderField && m.mark.Opened? && Token(ch) != 0
    requires m.st.nread < MAX_HEADER_SIZE
    ensures ByteStep(m, ch) == m.(st := NamedBy(m.st, [ch]), consumed := m.consumed + 1,
                                  mark := m.mark.(bytes := m.mark.bytes + [ch]))
  {
    hide NameStep, Act, Token;
    CountHeader(m.st);
    ActName(Count(m.st), ch);
    StepConsume(m, ch, Act(Count(m.st), ch));
    assert NameSteps(NameOf(m.st), [ch]) == NameStep(NameOf(m.st), ch) by { assert [ch][1..] == []; }
  }

  /** A run of name octets, or the header overflow it runs into. */
  lemma {:induction false} RunName(m: Machine, s: seq<byte>)
    requires Alive(m) && m.st.state == HeaderField && m.mark.Opened? && AllTokens(s)
    requires m.st.nread <= MAX_HEADER_SIZE
    ensures if m.st.nread + |s| <= MAX_HEADER_SIZE then
              Run(m, s) == m.(st := NamedBy(m.st, s), consumed := m.consumed + |s|,
                              mark := m.mark.(bytes := m.mark.bytes + s))
            else Overflowed(m, s, Run(m, s))
    decreases |s|
  {
    hide ByteStep, NameStep, Token;
    if s == [] {
      assert m.mark.bytes + s == m.mark.bytes;
    } else if m.st.nread == MAX_HEADER_SIZE {
      StepOverflow(m, s[0]);
      RunStopped(ByteStep(m, s[0]), s[1..]);
    } else {
      StepName(m, s[0]);
      RunName(ByteStep(m, s[0]), s[1..]);
      assert m.mark.bytes + [s[0]] + s[1..] == m.mark.bytes + s;
      assert NameSteps(NameOf(m.st), s) == NameSteps(NameStep(NameOf(m.st), s[0]), s[1..]);
      assert NameSteps(NameOf(m.st), [s[0]]) == NameStep(NameOf(m.st), s[0]) by { assert [s[0]][1..] == []; }
    }
  }

  // ---------- header values ----------

  predicate NoLineEnd(s: seq<byte>) {
    forall i :: 0 <= i < |s| ==> s[i] != CR && s[i] != LF
  }

  /** The scan of a run of value octets; an error stops it. */
  function ValueSteps(v: ValueScan, lenient: bool, s: seq<byte>): ValueScan
    decreases |s|
  {
    if s == [] || v.errno != OK then v else ValueSteps(ValueStep(v, lenient, s[0]), lenient, s[1..])
  }

  lemma {:induction false} ValueStepsConcat(v: ValueScan, lenient: bool, a: seq<byte>, b: seq<byte>)
    ensures ValueSteps(v, lenient, a + b) == ValueSteps(ValueSteps(v, lenient, a), lenient, b)
    decreases |a|
  {
    if a == [] {
      assert a + b == b;
    } else {
      assert (a + b)[0] == a[0] && (a + b)[1..] == a[1..] + b;
      if v.errno == OK {
        ValueStepsConcat(ValueStep(v, lenient, a[0]), lenient, a[1..], b);
      }
    }
  }

  lemma ValueStepsSnoc(v: ValueScan, lenient: bool, a: seq<byte>, c: byte)
    requires ValueSteps(v, lenient, a).errno == OK
    ensures ValueSteps(v, lenient, a + [c]) == ValueStep(ValueSteps(v, lenient, a), lenient, c)
  {
    ValueStepsConcat(v, lenient, a, [c]);
    assert [c][1..] == [];
    hide ValueStep;
  }

  lemma WithValueNread(st: Parser, v: ValueScan, n: nat)
    ensures WithValue(st.(nread := n), v) == WithValue(st, v).(nread := n)
  {
  }

  lemma ValueOfNread(st: Parser, n: nat)
    ensures ValueOf(st.(nread := n)) == ValueOf(st)
  {
  }

  lemma ActValue(st: Parser, ch: byte)
    requires st.errno == OK && st.state == HeaderValue && ch != CR && ch != LF
    ensures Act(st, ch) == Effect(WithValue(st, ValueStep(ValueOf(st), st.lenient, ch)), Nothing, Consume)
  {
    hide Lawful, ValueStep;
  }

  /** The parser after the value octets `s`. */
  function ValuedBy(st: Parser, s: seq<byte>): Parser {
    WithValue(st, ValueSteps(ValueOf(st), st.lenient, s)).(nread := st.nread + |s|)
  }

  lemma ValuedOne(st: Parser, ch: byte)
    requires st.errno == OK
    ensures ValuedBy(st, [ch]) == WithValue(st, ValueStep(ValueOf(st), st.lenient, ch)).(nread := st.nread + 1)
  {
    hide ValueStep, WithValue;
    var w := ValueStep(ValueOf(st), st.lenient, ch);
    assert [ch][1..] == [];
    assert ValueSteps(ValueOf(st), st.lenient, [ch]) == ValueSteps(w, st.lenient, []) == w;
  }

  lemma StepValue(m: Machine, ch: byte)
    requires Alive(m) && m.st.state == HeaderValue && m.mark.Opened? && ch != CR && ch != LF
    requires m.st.nread < MAX_HEADER_SIZE
    ensures if ValueStep(ValueOf(m.st), m.st.lenient, ch).errno == OK then
              ByteStep(m, ch) == m.(st := ValuedBy(m.st, [ch]), consumed := m.consumed + 1,
                                    mark := m.mark.(bytes := m.mark.bytes + [ch]))
            else ByteStep(m, ch) == m.(st := ValuedBy(m.st, [ch]))
  {
    hide ValueStep, Act, ByteStep, WithValue, ValueOf, ValuedBy;
    CountHeader(m.st);
    ActValue(Count(m.st), ch);
    StepConsume(m, ch, Act(Count(m.st), ch));
    ValuedOne(m.st, ch);
    ValueOfNread(m.st, m.st.nread + 1);
    WithValueNread(m.st, ValueStep(ValueOf(m.st), m.st.lenient, ch), m.st.nread + 1);
  }

  /** A run of value octets without error, or the header overflow it runs into. */
  lemma {:induction false} RunValue(m: Machine, s: seq<byte>)
    requires Alive(m) && m.st.state == HeaderValue && m.mark.Opened? && NoLineEnd(s)
    requires ValueSteps(ValueOf(m.st), m.st.lenient, s).errno == OK
    requires m.st.nread <= MAX_HEADER_SIZE
    ensures if m.st.nread + |s| <= MAX_HEADER_SIZE then
              Run(m, s) == m.(st := ValuedBy(m.st, s), consumed := m.consumed + |s|,
                              mark := m.mark.(bytes := m.mark.bytes + s))
            else Overflowed(m, s, Run(m, s))
    decreases |s|
  {
    hide ByteStep, ValueStep;
    if s == [] {
      assert m.mark.bytes + s == m.mark.bytes;
    } else if m.st.nread == MAX_HEADER_SIZE {
      StepOverflow(m, s[0]);
      RunStopped(ByteStep(m, s[0]), s[1..]);
    } else {
      var v := ValueStep(ValueOf(m.st), m.st.lenient, s[0]);
      StepValue(m, s[0]);
      assert v.errno == OK;
      assert ValueSteps(ValueOf(m.st), m.st.lenient, [s[0]]) == v by { assert [s[0]][1..] == []; }
      assert ValueSteps(ValueOf(m.st), m.st.lenient, s) == ValueSteps(v, m.st.lenient, s[1..]);
      assert ValueOf(ByteStep(m, s[0]).st) == v;
      RunValue(ByteStep(m, s[0]), s[1..]);
      assert m.mark.bytes + [s[0]] + s[1..] == m.mark.bytes + s;
    }
  }

  /** A run of value octets that the scan rejects makes the parser fail. */
  lemma {:induction false} RunValueFails(m: Machine, s: seq<byte>)
    requires Alive(m) && m.st.state == HeaderValue && m.mark.Opened? && NoLineEnd(s)
    requires ValueSteps(ValueOf(m.st), m.st.lenient, s).errno != OK
    ensures Run(m, s).st.errno != OK
    decreases |s|
  {
    hide ByteStep, ValueStep;
    if m.st.nread >= MAX_HEADER_SIZE {
      StepOverflow(m, s[0]);
      RunStopped(ByteStep(m, s[0]), s[1..]);
    } else {
      var v := ValueStep(ValueOf(m.st), m.st.lenient, s[0]);
      StepValue(m, s[0]);
      assert ValueSteps(ValueOf(m.st), m.st.lenient, [s[0]]) == v by { assert [s[0]][1..] == []; }
      assert ValueSteps(ValueOf(m.st), m.st.lenient, s) == ValueSteps(v, m.st.lenient, s[1..]);
      if v.errno == OK {
        assert ValueOf(ByteStep(m, s[0]).st) == v;
        RunValueFails(ByteStep(m, s[0]), s[1..]);
      } else {
        RunStopped(ByteStep(m, s[0]), s[1..]);
      }
    }
  }

  // ---------- bodies ----------

  /** The octets an open (or not yet open) body mark covers. */
  function BodySoFar(mark: Mark): seq<byte> {
    match mark case Closed => [] case Opened(_, b) => b
  }

  predicate BodyMark(mark: Mark) {
    mark.Opened? ==> mark.part == Body
  }

  lemma ActIdentity(st: Parser, ch: byte)
    requires st.errno == OK && st.state == BodyIdentity && 1 < st.contentLength < ULLONG_MAX
    ensures Act(st, ch) == Effect(st.(contentLength := st.contentLength - 1), Open(Body), Consume)
  {
    hide Lawful;
  }

  /** Conservation: fewer octets than are left of a Content-Length body leave the rest outstanding. */
  lemma {:induction false} RunIdentity(m: Machine, s: seq<byte>)
    requires Alive(m) && m.st.state == BodyIdentity && BodyMark(m.mark) && 0 < |s| < m.st.contentLength < ULLONG_MAX
    ensures Run(m, s) == m.(st := m.st.(contentLength := m.st.contentLength - |s|),
                            consumed := m.consumed + |s|, mark := Opened(Body, BodySoFar(m.mark) + s))
    decreases |s|
  {
    hide ByteStep, Act;
    assert Count(m.st) == m.st;
    ActIdentity(m.st, s[0]);
    StepConsume(m, s[0], Act(m.st, s[0]));
    var m1 := ByteStep(m, s[0]);
    assert m1.mark == Opened(Body, BodySoFar(m.mark) + [s[0]]);
    if s[1..] == [] {
      assert s == [s[0]];
    } else {
      RunIdentity(m1, s[1..]);
      assert BodySoFar(m.mark) + [s[0]] + s[1..] == BodySoFar(m.mark) + s;
    }
  }

  lemma ActLast(st: Parser, ch: byte)
    requires st.errno == OK && st.state == BodyIdentity && st.contentLength == 1
    ensures Act(st, ch) == Effect(st.(contentLength := 0, state := MessageDone), Last, Again)
  {
    hide Lawful;
  }

  lemma ActMessageDone(st: Parser, ch: byte)
    requires st.errno == OK && st.state == MessageDone
    ensures Act(st, ch) == Effect(st.(state := NewMessage(st)), Notify(MessageComplete), if st.upgrade then Exit else Consume)
  {
    hide Lawful, NewMessage;
  }

  /** The state after a message with an exhausted Content-Length. */
  function MessageOver(st: Parser): Parser {
    st.(contentLength := 0, state := NewMessage(st.(contentLength := 0, state := MessageDone)))
  }

  /** The last octet of a Content-Length body delivers it and completes the message. */
  lemma StepLast(m: Machine, ch: byte)
    requires Alive(m) && m.st.state == BodyIdentity && BodyMark(m.mark) && m.st.contentLength == 1
    ensures ByteStep(m, ch) == m.(
        st := MessageOver(m.st), mark := Closed, exited := m.st.upgrade, consumed := m.consumed + 1,
        log := m.log + [Data(Body, BodySoFar(m.mark) + [ch]), MessageComplete])
  {
    hide Act, NewMessage, Dispatch;
    StepUncounted(m, ch);
    ActLast(m.st, ch);
    DispatchOnce(m, ch, Act(m.st, ch));
    var m1 := Perform(m, Last, ch).(st := m.st.(contentLength := 0, state := MessageDone));
    ActMessageDone(m1.st, ch);
    DispatchOnce(m1, ch, Act(m1.st, ch));
    assert m1.log + [MessageComplete] == m.log + [Data(Body, BodySoFar(m.mark) + [ch]), MessageComplete];
  }

  lemma ActData(st: Parser, ch: byte)
    requires st.errno == OK && st.state == ChunkData && 0 < st.contentLength < ULLONG_MAX
    ensures Act(st, ch) == Effect(DataLeft(st, 1), Open(Body), Consume)
  {
    hide Lawful;
  }

  /** The parser after `n` octets of chunk data. */
  function DataLeft(st: Parser, n: nat): Parser
    requires n <= st.contentLength
  {
    st.(contentLength := st.contentLength - n,
        state := if n == st.contentLength then ChunkDataAlmostDone else st.state)
  }

  lemma {:induction false} RunChunkData(m: Machine, s: seq<byte>)
    requires Alive(m) && m.st.state == ChunkData && BodyMark(m.mark) && 0 < |s| <= m.st.contentLength < ULLONG_MAX
    ensures Run(m, s) == m.(st := DataLeft(m.st, |s|), consumed := m.consumed + |s|,
                            mark := Opened(Body, BodySoFar(m.mark) + s))
    decreases |s|
  {
    hide ByteStep, Act;
    assert Count(m.st) == m.st;
    ActData(m.st, s[0]);
    StepConsume(m, s[0], Act(m.st, s[0]));
    var m1 := ByteStep(m, s[0]);
    assert m1.mark == Opened(Body, BodySoFar(m.mark) + [s[0]]);
    if s[1..] == [] {
      assert s == [s[0]];
    } else {
      RunChunkData(m1, s[1..]);
      assert BodySoFar(m.mark) + [s[0]] + s[1..] == BodySoFar(m.mark) + s;
    }
  }

  lemma ActEof(st: Parser, ch: byte)
    requires st.errno == OK && st.state == BodyIdentityEof
    ensures Act(st, ch) == Effect(st, Open(Body), Consume)
  {
    hide Lawful;
  }

  /** A body that lasts until the connection closes takes everything. */
  lemma {:induction false} RunEof(m: Machine, s: seq<byte>)
    requires Alive(m) && m.st.state == BodyIdentityEof && BodyMark(m.mark) && 0 < |s|
    ensures Run(m, s) == m.(consumed := m.consumed + |s|, mark := Opened(Body, BodySoFar(m.mark) + s))
    decreases |s|
  {
    hide ByteStep, Act;
    assert Count(m.st) == m.st;
    ActEof(m.st, s[0]);
    StepConsume(m, s[0], Act(m.st, s[0]));
    var m1 := ByteStep(m, s[0]);
    assert m1.mark == Opened(Body, BodySoFar(m.mark) + [s[0]]);
    if s[1..] == [] {
      assert s == [s[0]];
    } else {
      RunEof(m1, s[1..]);
      assert BodySoFar(m.mark) + [s[0]] + s[1..] == BodySoFar(m.mark) + s;
    }
  }
}
