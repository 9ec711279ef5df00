/** http_parser_execute itself: a loop over the buffer with mark pointers and inner loops that skip
    ahead, proved against the fold of one octet after another. */
module HttpParser {
  import opened Bytes
  import opened HttpTypes
  import opened HttpAct
  import opened HttpMachine
  import opened HttpInvariant
  import opened HttpRuns

  // ---------- the skip-ahead loops ----------

  lemma NameStepsSnoc(n: NameScan, data: seq<byte>, start: nat, p: nat)
    requires start <= p < |data|
    ensures NameSteps(n, data[start..p + 1]) == NameStep(NameSteps(n, data[start..p]), data[p])
    ensures AllTokens(data[start..p]) && Token(data[p]) != 0 ==> AllTokens(data[start..p + 1])
  {
    hide NameStep, Token;
    assert data[start..p + 1] == data[start..p] + [data[p]];
    NameStepsConcat(n, data[start..p], [data[p]]);
    assert [data[p]][1..] == [];
  }

  lemma GeneralName(n: NameScan, c: byte)
    requires n.m.h.General?
    ensures NameStep(n, c) == n
  {
  }

  /** The `s_header_field` loop: from `start` to the first octet that is not a token octet. */
  method ScanName(n0: NameScan, data: seq<byte>, start: nat) returns (n: NameScan, p: nat)
    requires start <= |data|
    ensures start <= p <= |data| && AllTokens(data[start..p])
    ensures p < |data| ==> Token(data[p]) == 0
    ensures n == NameSteps(n0, data[start..p])
  {
    hide NameStep, Token;
    n, p := n0, start;
    while p < |data|
      invariant start <= p <= |data| && AllTokens(data[start..p])
      invariant n == NameSteps(n0, data[start..p])
    {
      var ch := data[p];
      if Token(ch) == 0 {
        break;
      }
      NameStepsSnoc(n0, data, start, p);
      if n.m.h.General? {
        GeneralName(n, ch);
        var left := |data| - p;
        var pe := p + if left < MAX_HEADER_SIZE then left else MAX_HEADER_SIZE;
        while p + 1 < pe && Token(data[p + 1]) != 0
          invariant start <= p < |data| && p < pe && AllTokens(data[start..p + 1])
          invariant n == NameSteps(n0, data[start..p + 1])
        {
          p := p + 1;
          NameStepsSnoc(n0, data, start, p);
          GeneralName(n, data[p]);
        }
      } else {
        n := NameStep(n, ch);
      }
      p := p + 1;
    }
  }

  /** Why the `s_header_value` loop ended. */
  datatype Stop = AtEnd | AtLineEnd | Bad

  /** The loop has read the octets from `start` to `p` as the one-octet form would. */
  ghost predicate ValueRead(v0: ValueScan, lenient: bool, data: seq<byte>, start: nat, p: nat)
    requires start <= p <= |data|
  {
    NoLineEnd(data[start..p]) && ValueSteps(v0, lenient, data[start..p]).errno == OK
  }

  lemma ValueReadOn(v0: ValueScan, lenient: bool, data: seq<byte>, start: nat, p: nat)
    requires start <= p < |data| && ValueRead(v0, lenient, data, start, p)
    requires data[p] != CR && data[p] != LF
    ensures ValueSteps(v0, lenient, data[start..p + 1]) == ValueStep(ValueSteps(v0, lenient, data[start..p]), lenient, data[p])
    ensures NoLineEnd(data[start..p + 1])
  {
    hide ValueStep;
    assert data[start..p + 1] == data[start..p] + [data[p]];
    ValueStepsSnoc(v0, lenient, data[start..p], data[p]);
  }

  lemma GeneralValue(v: ValueScan, lenient: bool, c: byte)
    requires v.m.h.General? && v.errno == OK
    ensures ValueStep(v, lenient, c) == if !lenient && !IsHeaderChar(c) then v.(errno := INVALID_HEADER_TOKEN) else v
  {
  }

  predicate Bland(lenient: bool, c: byte) {
    c != CR && c != LF && (lenient || IsHeaderChar(c))
  }

  lemma {:induction false} GeneralRun(v0: ValueScan, lenient: bool, data: seq<byte>, start: nat, p: nat, q: nat)
    requires start <= p <= q <= |data| && ValueRead(v0, lenient, data, start, p)
    requires ValueSteps(v0, lenient, data[start..p]).m.h.General?
    requires forall i :: p <= i < q ==> Bland(lenient, data[i])
    ensures ValueRead(v0, lenient, data, start, q)
    ensures ValueSteps(v0, lenient, data[start..q]) == ValueSteps(v0, lenient, data[start..p])
    decreases q
  {
    hide ValueStep, IsHeaderChar;
    if p < q {
      GeneralRun(v0, lenient, data, start, p, q - 1);
      ValueReadOn(v0, lenient, data, start, q - 1);
      GeneralValue(ValueSteps(v0, lenient, data[start..q - 1]), lenient, data[q - 1]);
    }
  }

  lemma ValueReadPrefix(v0: ValueScan, lenient: bool, data: seq<byte>, start: nat, k: nat, p: nat)
    requires start <= k <= p <= |data| && ValueRead(v0, lenient, data, start, p)
    ensures ValueRead(v0, lenient, data, start, k)
  {
    hide ValueStep;
    assert data[start..p] == data[start..k] + data[k..p];
    ValueStepsConcat(v0, lenient, data[start..k], data[k..p]);
    assert forall i :: 0 <= i < k - start ==> data[start..k][i] == data[start..p][i];
  }

  /** The inner loop of the general case, over the octets up to `pe`. */
  method SkipGeneral(lenient: bool, data: seq<byte>, p: nat, pe: nat) returns (q: nat, bad: bool)
    requires p <= pe <= |data|
    ensures p <= q <= pe && forall i :: p <= i < q ==> Bland(lenient, data[i])
    ensures bad ==> q < pe && data[q] != CR && data[q] != LF && !lenient && !IsHeaderChar(data[q])
    ensures !bad && q < pe ==> data[q] == CR || data[q] == LF
  {
    hide IsHeaderChar;
    q, bad := p, false;
    while q < pe
      invariant p <= q <= pe && forall i :: p <= i < q ==> Bland(lenient, data[i])
    {
      if data[q] == CR || data[q] == LF {
        break;
      }
      if !lenient && !IsHeaderChar(data[q]) {
        bad := true;
        break;
      }
      q := q + 1;
    }
  }

  /** Equal but for `header_state`, which the source leaves stale when it rejects an octet. */
  predicate SameFailedScan(v: ValueScan, w: ValueScan) {
    v.errno != OK && v.(m := v.m.(h := w.m.h)) == w
  }

  /** What the loop leaves behind, when it has not jumped over an octet. */
  ghost predicate ValueScanned(v0: ValueScan, lenient: bool, data: seq<byte>, start: nat, v: ValueScan, p: nat, stop: Stop)
    requires start <= p <= |data|
  {
    && ValueRead(v0, lenient, data, start, p)
    && (stop.AtEnd? ==> p == |data|)
    && (stop.AtLineEnd? ==> p < |data| && (data[p] == CR || data[p] == LF))
    && (stop.Bad? ==> p < |data| && data[p] != CR && data[p] != LF)
    && (stop.Bad? ==> SameFailedScan(v, ValueStep(ValueSteps(v0, lenient, data[start..p]), lenient, data[p])))
    && (!stop.Bad? ==> v == ValueSteps(v0, lenient, data[start..p]))
  }

  /** More than `max_header_size` octets of value were read: the header is bound to overflow. */
  ghost predicate TooLong(v0: ValueScan, lenient: bool, data: seq<byte>, start: nat, p: nat) {
    p - start > MAX_HEADER_SIZE && p <= |data| && ValueRead(v0, lenient, data, start, start + MAX_HEADER_SIZE)
  }

  /** The `s_header_value` loop. When the general case hits its `max_header_size` bound short of the
      end of the buffer, the source steps over the next octet without looking at it. */
  method ScanValue(v0: ValueScan, lenient: bool, data: seq<byte>, start: nat)
    returns (v: ValueScan, p: nat, stop: Stop)
    requires start <= |data| && v0.errno == OK
    ensures start <= p <= |data| && (v.errno == OK <==> !stop.Bad?)
    ensures stop.AtLineEnd? ==> p < |data| && (data[p] == CR || data[p] == LF)
    ensures ValueScanned(v0, lenient, data, start, v, p, stop) || TooLong(v0, lenient, data, start, p)
  {
    hide ValueStep, IsHeaderChar;
    v, p, stop := v0, start, AtEnd;
    ghost var skipped := false;
    while p < |data|
      invariant start <= p <= |data| && v.errno == OK
      invariant if skipped then TooLong(v0, lenient, data, start, p)
                else ValueRead(v0, lenient, data, start, p) && v == ValueSteps(v0, lenient, data[start..p])
    {
      var ch := data[p];
      if ch == CR || ch == LF {
        stop := AtLineEnd;
        break;
      }
      if v.m.h.General? {
        var left := |data| - p;
        var pe := p + if left < MAX_HEADER_SIZE then left else MAX_HEADER_SIZE;
        var q, bad := SkipGeneral(lenient, data, p, pe);
        if !skipped {
          GeneralRun(v0, lenient, data, start, p, q);
        }
        p := q;
        if bad {
          GeneralValue(v, lenient, data[p]);
          v, stop := v.(m := v.m.(h := v0.m.h), errno := INVALID_HEADER_TOKEN), Bad;
          break;
        }
        if q == pe && q < |data| {
          if !skipped {
            ValueReadPrefix(v0, lenient, data, start, start + MAX_HEADER_SIZE, q);
          }
          skipped := true;
          p := p + 1;
        }
      } else {
        if !skipped {
          ValueReadOn(v0, lenient, data, start, p);
        }
        var w := ValueStep(v, lenient, ch);
        if w.errno != OK {
          v := if !lenient && !IsHeaderChar(ch) then w.(m := w.m.(h := v0.m.h)) else w;
          stop := Bad;
          break;
        }
        v, p := w, p + 1;
      }
    }
  }

  // ---------- the locals of one call ----------

  /** The five mark pointers, as offsets into the buffer; -1 is NULL. */
  datatype Marks = Marks(headerField: int, headerValue: int, url: int, body: int, status: int)

  const NoMarks := Marks(-1, -1, -1, -1, -1)

  function MarkOf(ms: Marks, k: Part): int {
    match k
    case Field => ms.headerField
    case Value => ms.headerValue
    case Url => ms.url
    case Body => ms.body
    case Status => ms.status
  }

  function SetMark(ms: Marks, k: Part, p: int): Marks {
    match k
    case Field => ms.(headerField := p)
    case Value => ms.(headerValue := p)
    case Url => ms.(url := p)
    case Body => ms.(body := p)
    case Status => ms.(status := p)
  }

  /** At most one mark is set, and it covers the octets that the abstract mark has collected. */
  ghost predicate Depicts(ms: Marks, mark: Mark, data: seq<byte>, p: nat)
    requires p <= |data|
  {
    match mark
    case Closed => ms == NoMarks
    case Opened(k, b) =>
      && 0 <= MarkOf(ms, k) <= p && ms == SetMark(NoMarks, k, MarkOf(ms, k))
      && b == data[MarkOf(ms, k)..p]
  }

  /** The local variables of a call: the parser with its live `state` and `nread`, the callbacks
      made so far, the marks and the position. */
  datatype Locals = Locals(st: Parser, log: seq<Event>, marks: Marks, p: nat)

  /** The locals carry the state of the machine that has read `data[..p]`. */
  ghost predicate Mirrors(c: Locals, m: Machine, data: seq<byte>) {
    && c.p <= |data|
    && c.st == m.st && c.log == m.log && m.consumed == c.p && !m.exited
    && Depicts(c.marks, m.mark, data, c.p)
  }

  /** MARK(k) */
  function MarkHere(c: Locals, k: Part): Locals {
    if MarkOf(c.marks, k) < 0 then c.(marks := SetMark(c.marks, k, c.p)) else c
  }

  /** CALLBACK_DATA_(k, end - mark, ..) */
  function CallbackData(c: Locals, k: Part, data: seq<byte>, end: nat): Locals
    requires MarkOf(c.marks, k) <= end <= |data|
  {
    if MarkOf(c.marks, k) < 0 then c
    else c.(log := c.log + [Data(k, data[MarkOf(c.marks, k)..end])], marks := SetMark(c.marks, k, -1))
  }

  lemma CallbackMore(c: Locals, data: seq<byte>, end: nat)
    requires MarkOf(c.marks, Value) <= end <= |data|
    ensures OneValueMore(c.log, CallbackData(c, Value, data, end).log) && CallbackData(c, Value, data, end).p == c.p
  {
  }

  lemma MarkHereDepicts(c: Locals, m: Machine, k: Part, data: seq<byte>)
    requires Mirrors(c, m, data) && (m.mark.Opened? ==> m.mark.part == k)
    ensures Mirrors(MarkHere(c, k), Perform(m, Open(k), 0), data)
  {
  }

  lemma CallbackDepicts(c: Locals, m: Machine, k: Part, data: seq<byte>)
    requires Mirrors(c, m, data) && (m.mark.Opened? ==> m.mark.part == k)
    ensures Mirrors(CallbackData(c, k, data, c.p), Flush(m), data)
  {
  }

  /** `p++`: the marks stay, and cover one octet more. */
  lemma AdvanceDepicts(c: Locals, m: Machine, data: seq<byte>)
    requires Mirrors(c, m, data) && c.p < |data| && m.st.errno == OK
    ensures Mirrors(c.(p := c.p + 1), Advance(m, data[c.p]), data)
  {
    if m.mark.Opened? {
      var i := MarkOf(c.marks, m.mark.part);
      assert data[i..c.p + 1] == data[i..c.p] + [data[c.p]];
    }
  }

  // ---------- the cases that look at one octet ----------

  /** The mark that a case with `Close` flushes. */
  function ClosingPart(s: State): Part {
    match OpenPart(s) case Some(k) => k case None => Body
  }

  lemma ClosingPartOk(m: Machine)
    requires MarkOk(m)
    ensures m.mark.Opened? ==> m.mark.part == ClosingPart(m.st.state)
  {
  }

  /** The marks and callbacks of one pass through the switch. */
  method Output(c: Locals, e: Effect, data: seq<byte>, ghost m: Machine) returns (c': Locals)
    requires Mirrors(c, m, data) && MarkOk(m) && c.p < |data| && c.st.errno == OK && Lawful(c.st, e)
    ensures Mirrors(c'.(st := m.st), Perform(m, e.out, data[c.p]), data) && c'.st == e.st && c'.p == c.p
  {
    hide Lawful;
    ClosingPartOk(m);
    MarkFollows(m, e, data[c.p]);
    match e.out {
      case Nothing => c' := c;
      case Open(k) =>
        MarkHereDepicts(c, m, k, data);
        c' := MarkHere(c, k);
      case Close =>
        CallbackDepicts(c, m, ClosingPart(c.st.state), data);
        c' := CallbackData(c, ClosingPart(c.st.state), data, c.p);
      case Instant(k) =>
        MarkHereDepicts(c, m, k, data);
        CallbackDepicts(MarkHere(c, k), Perform(m, Open(k), 0), k, data);
        c' := CallbackData(MarkHere(c, k), k, data, c.p);
      case Last =>
        MarkHereDepicts(c, m, Body, data);
        c' := MarkHere(c, Body);
        var i := c'.marks.body;
        assert data[i..c.p + 1] == data[i..c.p] + [data[c.p]];
        c' := CallbackData(c', Body, data, c.p + 1);
      case Notify(event) => c' := c.(log := c.log + [event]);
    }
    c' := c'.(st := e.st);
  }

  /** `reexecute:` and the switch, for the octet at `c.p`. */
  method Octet(c: Locals, data: seq<byte>, ghost m: Machine) returns (c': Locals, exited: bool)
    requires Mirrors(c, m, data) && MarkOk(m) && c.p < |data| && c.st.errno == OK
    ensures exited == Dispatch(m, data[c.p]).exited && c'.p == c.p
    ensures exited ==> c'.st.errno == OK && Dispatch(m, data[c.p]).mark == Closed
    ensures Mirrors(c', Dispatch(m, data[c.p]).(exited := false), data)
  {
    hide Act, Lawful, MarkOk, Perform, Depicts;
    c', exited := c, false;
    var again := true;
    ghost var d := m;
    while again
      invariant c'.p == c.p
      invariant again ==> Mirrors(c', d, data) && MarkOk(d) && d.st.errno == OK
      invariant again ==> Dispatch(d, data[c.p]) == Dispatch(m, data[c.p])
      invariant !again ==> exited == Dispatch(m, data[c.p]).exited
      invariant again ==> !exited
      invariant exited ==> c'.st.errno == OK && Dispatch(m, data[c.p]).mark == Closed
      invariant !again ==> Mirrors(c', Dispatch(m, data[c.p]).(exited := false), data)
      decreases if again then Rank(c'.st.state) + 1 else 0
    {
      var e := Act(c'.st, data[c.p]);
      c' := Output(c', e, data, d);
      DispatchOnce(d, data[c.p], e);
      OctetStep(d, e, data[c.p]);
      d := Perform(d, e.out, data[c.p]).(st := e.st);
      again, exited := e.next == Again, e.next == Exit;
    }
  }

  lemma OctetStep(d: Machine, e: Effect, ch: byte)
    requires d.st.errno == OK && MarkOk(d) && Lawful(d.st, e)
    ensures e.next == Again ==> e.st.errno == OK && Rank(e.st.state) < Rank(d.st.state)
    ensures e.st.errno == OK ==> MarkOk(Perform(d, e.out, ch).(st := e.st))
    ensures Perform(d, e.out, ch).st == d.st && Perform(d, e.out, ch).consumed == d.consumed
    ensures Perform(d, e.out, ch).exited == d.exited
    ensures e.next == Exit ==> e.st.errno == OK && Perform(d, e.out, ch).mark == Closed
  {
    MarkFollows(d, e, ch);
    hide MarkOk, MarksFit;
  }

  // ---------- the cases that loop over the buffer ----------

  /** Everything known about the locals and the abstract machine between two octets. */
  ghost predicate Between(c: Locals, m: Machine, data: seq<byte>) {
    Mirrors(c, m, data) && Alive(m) && MarkOk(m) && Valid(m.st)
  }

  /** Equal but for the fields an error leaves stale: `header_state`, and `nread`, which the source
      brings up to date only after the loop. */
  predicate SameFailure(a: Parser, b: Parser) {
    a.errno != OK && a.(headerState := b.headerState, nread := b.nread) == b
  }

  /** The same callbacks, but for a value delivered on top of them. */
  predicate OneValueMore(a: seq<Event>, b: seq<Event>) {
    a == b || (|b| == |a| + 1 && b[..|a|] == a && b[|a|].Data? && b[|a|].part == Value)
  }

  /** The call fails as the one-octet form does. Where that overflows the header limit, the source has gone on
      to the end of a name or value before it counts: it may have found another error there, and may have
      delivered the value. */
  ghost predicate Failed(c: Locals, r: Machine) {
    && c.st.errno != OK && r.st.errno != OK
    && if r.st.errno == HEADER_OVERFLOW then OneValueMore(r.log, c.log) && r.consumed <= c.p
       else SameFailure(c.st, r.st) && c.log == r.log && c.p == r.consumed && !r.exited
  }

  /** A case entered at `p` and left at `c'.p` did what one octet after another would do. */
  ghost predicate Ran(p: nat, m: Machine, c': Locals, data: seq<byte>) {
    && p <= |data|
    && if c'.st.errno == OK then
         p < c'.p <= |data| && Between(c', Run(m, data[p..c'.p]), data)
       else Failed(c', Run(m, data[p..]))
  }

  lemma RunStaysBetween(m: Machine, s: seq<byte>)
    requires Alive(m) && MarkOk(m) && Valid(m.st)
    ensures Alive(Run(m, s)) ==> MarkOk(Run(m, s)) && Valid(Run(m, s).st)
  {
    RunMarkOk(m, s);
    RunKeeps(m, s);
  }

  /** A failure at some octet is the failure of the whole rest of the buffer. */
  lemma FailsForGood(m: Machine, data: seq<byte>, i: nat, j: nat)
    requires i <= j <= |data| && !Alive(Run(m, data[i..j]))
    ensures Run(m, data[i..]) == Run(m, data[i..j])
  {
    assert data[i..] == data[i..j] + data[j..];
    RunConcat(m, data[i..j], data[j..]);
    RunStopped(Run(m, data[i..j]), data[j..]);
  }

  lemma RunOneMore(m: Machine, data: seq<byte>, i: nat, j: nat)
    requires i <= j < |data|
    ensures Run(m, data[i..j + 1]) == ByteStep(Run(m, data[i..j]), data[j])
  {
    assert data[i..j + 1] == data[i..j] + [data[j]];
    RunSnoc(m, data[i..j], data[j]);
  }

  /** The octet that ends a header name. */
  lemma NameEnds(m: Machine, ch: byte)
    requires Alive(m) && m.st.state == HeaderField && Token(ch) == 0 && m.st.nread < MAX_HEADER_SIZE
    ensures var st := m.st.(nread := m.st.nread + 1);
      if ch == ':' as int then
        ByteStep(m, ch) == Advance(Flush(m).(st := st.(state := HeaderValueDiscardWs)), ch)
      else ByteStep(m, ch) == m.(st := st.(errno := INVALID_HEADER_TOKEN))
  {
    hide Act, Token, ByteStep;
    CountHeader(m.st);
    ActNameEnd(Count(m.st), ch);
    StepConsume(m, ch, Act(Count(m.st), ch));
  }

  lemma ActNameEnd(st: Parser, ch: byte)
    requires st.errno == OK && st.state == HeaderField && Token(ch) == 0
    ensures Act(st, ch) == if ch == ':' as int then Effect(st.(state := HeaderValueDiscardWs), Close, Consume)
                           else Fail(st, INVALID_HEADER_TOKEN)
  {
    hide Lawful, Token;
  }

  /** COUNT_HEADER_SIZE(n) */
  function CountMore(st: Parser, n: nat): Parser {
    var total := st.nread + n;
    if total > MAX_HEADER_SIZE then st.(nread := total, errno := HEADER_OVERFLOW) else st.(nread := total)
  }

  /** What `case s_header_field` starts from. */
  ghost predicate AtCase(c: Locals, m: Machine, data: seq<byte>) {
    && Between(c.(st := m.st), m, data) && c.p < |data|
    && c.st == Count(m.st) && c.st.errno == OK
  }

  /** The locals after the name octets up to `q`, as long as the header fits. */
  lemma NameReached(c: Locals, m: Machine, data: seq<byte>, q: nat)
    requires AtCase(c, m, data) && m.st.state == HeaderField && c.p <= q <= |data|
    requires AllTokens(data[c.p..q])
    ensures if m.st.nread + (q - c.p) <= MAX_HEADER_SIZE then
              var st := WithName(c.st, NameSteps(NameOf(c.st), data[c.p..q])).(nread := m.st.nread + (q - c.p));
              Between(c.(st := st, p := q), Run(m, data[c.p..q]), data)
            else Overflowed(m, data[c.p..q], Run(m, data[c.p..q])) && m.log == c.log && m.consumed == c.p
  {
    hide Act, Token, NameSteps, MarkOk, Valid, ByteStep, Run;
    FieldMark(m);
    RunName(m, data[c.p..q]);
    RunStaysBetween(m, data[c.p..q]);
    Extended(c, m, data, q);
  }

  /** A loop that has reached the end of the buffer steps back to the last octet and counts; an overflow stays there. */
  function AtLast(c: Locals, st: Parser, data: seq<byte>): Locals
    requires c.p < |data|
  {
    var counted := CountMore(st, |data| - 1 - c.p);
    c.(st := counted, p := if counted.errno == OK then |data| else |data| - 1)
  }

  lemma NameAtEnd(c: Locals, m: Machine, data: seq<byte>)
    requires AtCase(c, m, data) && m.st.state == HeaderField && AllTokens(data[c.p..])
    ensures var n := NameSteps(NameOf(c.st), data[c.p..]);
      Ran(c.p, m, AtLast(c, WithName(c.st, n), data), data)
  {
    hide Act, Token, NameSteps, Run, WithName, NameOf, ByteStep, MarkOk, Valid, Depicts;
    assert c.st.nread == m.st.nread + 1;
    assert data[c.p..|data|] == data[c.p..];
    NameReached(c, m, data, |data|);
  }

  /** The colon closes the name. */
  lemma ColonRead(d: Locals, r: Machine, data: seq<byte>)
    requires AtCase(d, r, data) && r.st.state == HeaderField && data[d.p] == ':' as int
    ensures 0 <= d.marks.headerField <= d.p
    ensures var r' := ByteStep(r, data[d.p]);
      && Alive(r')
      && Mirrors(CallbackData(d, Field, data, d.p).(st := d.st.(state := HeaderValueDiscardWs), p := d.p + 1), r', data)
  {
    assert Token(':' as int) == 0;
    hide Act, Token, Valid, ByteStep, MarkOk;
    FieldMark(r);
    NameEnds(r, data[d.p]);
    CallbackDepicts(d.(st := r.st), r, Field, data);
    AdvanceDepicts(CallbackData(d, Field, data, d.p).(st := r.st), Flush(r), data);
  }

  lemma BadNameRead(d: Locals, r: Machine, data: seq<byte>)
    requires AtCase(d, r, data) && r.st.state == HeaderField && data[d.p] != ':' as int && Token(data[d.p]) == 0
    ensures Failed(d.(st := d.st.(errno := INVALID_HEADER_TOKEN)), ByteStep(r, data[d.p]))
  {
    hide Act, Token, Valid, ByteStep, MarkOk;
    NameEnds(r, data[d.p]);
  }

  /** A step that fails at `q` decides the outcome for the rest of the buffer. */
  lemma StepFails(c: Locals, m: Machine, c': Locals, data: seq<byte>, q: nat)
    requires c.p <= q < |data| && Failed(c', ByteStep(Run(m, data[c.p..q]), data[q]))
    ensures Ran(c.p, m, c', data)
  {
    hide ByteStep, Run;
    RunOneMore(m, data, c.p, q);
    FailsForGood(m, data, c.p, q + 1);
  }

  /** The limit is passed at octet `q` or before it, without a callback. */
  predicate Overflows(c: Locals, r: Machine, q: nat) {
    && r.log == c.log && r.consumed <= q
    && (r.st.errno == HEADER_OVERFLOW || (Alive(r) && ParsingHeader(r.st.state) && r.st.nread >= MAX_HEADER_SIZE))
  }

  lemma OverflowFails(c: Locals, m: Machine, c': Locals, data: seq<byte>, q: nat)
    requires c.p <= q < |data| && c'.st.errno != OK && OneValueMore(c.log, c'.log) && c'.p >= q
    requires Overflows(c, Run(m, data[c.p..q]), q)
    ensures Ran(c.p, m, c', data)
  {
    hide Run, ByteStep;
    var r := Run(m, data[c.p..q]);
    if Alive(r) {
      StepOverflow(r, data[q]);
    } else {
      StepStopped(r, data[q]);
    }
    StepFails(c, m, c', data, q);
  }

  /** A step that succeeds at `q` extends the run. */
  lemma StepRan(c: Locals, m: Machine, c': Locals, data: seq<byte>, q: nat)
    requires Alive(m) && MarkOk(m) && Valid(m.st)
    requires c.p <= q < |data| && c'.p == q + 1 && c'.st.errno == OK
    requires var r := ByteStep(Run(m, data[c.p..q]), data[q]); Mirrors(c', r, data) && Alive(r)
    ensures Ran(c.p, m, c', data)
  {
    hide ByteStep, Run, Mirrors, MarkOk, Valid;
    RunOneMore(m, data, c.p, q);
    RunStaysBetween(m, data[c.p..q + 1]);
  }

  lemma NameOverflowed(c: Locals, m: Machine, data: seq<byte>, q: nat)
    requires AtCase(c, m, data) && m.st.state == HeaderField && c.p <= q < |data| && AllTokens(data[c.p..q])
    requires c.st.nread + (q - c.p) > MAX_HEADER_SIZE
    ensures Overflows(c, Run(m, data[c.p..q]), q)
  {
    hide Act, Token, NameSteps, Run, ByteStep, Valid, MarkOk, Depicts, NameOf;
    NameReached(c, m, data, q);
    NameCounted(m.st);
  }

  lemma NameCounted(st: Parser)
    requires st.state == HeaderField && Count(st).errno == OK
    ensures ParsingHeader(HeaderField) && Count(st).nread == st.nread + 1
  {
  }

  /** The count after the loop finds the header too long. */
  lemma NameOverflows(c: Locals, m: Machine, data: seq<byte>, q: nat, d: Locals)
    requires AtCase(c, m, data) && m.st.state == HeaderField && c.p <= q < |data| && AllTokens(data[c.p..q])
    requires d == c.(st := CountMore(WithName(c.st, NameSteps(NameOf(c.st), data[c.p..q])), q - c.p), p := q)
    requires d.st.errno != OK
    ensures Ran(c.p, m, d, data)
  {
    hide Act, Token, NameSteps, Run, Ran, ByteStep, NameOf, Overflows, Between;
    NameOverflowed(c, m, data, q);
    OverflowFails(c, m, d, data, q);
  }

  lemma NameAtStop(c: Locals, m: Machine, data: seq<byte>, q: nat)
    requires AtCase(c, m, data) && m.st.state == HeaderField && c.p <= q < |data|
    requires AllTokens(data[c.p..q]) && Token(data[q]) == 0
    ensures var n := NameSteps(NameOf(c.st), data[c.p..q]);
      var d := c.(st := CountMore(WithName(c.st, n), q - c.p), p := q);
      if d.st.errno != OK then Ran(c.p, m, d, data)
      else if data[q] == ':' as int then
        0 <= d.marks.headerField <= q
        && Ran(c.p, m, CallbackData(d, Field, data, q).(st := d.st.(state := HeaderValueDiscardWs), p := q + 1), data)
      else Ran(c.p, m, d.(st := d.st.(errno := INVALID_HEADER_TOKEN)), data)
  {
    hide Act, Token, NameSteps, Run, Ran, ByteStep, Valid, MarkOk, Depicts, WithName, NameOf, Failed, CallbackData, Overflowed;
    NameReached(c, m, data, q);
    var r := Run(m, data[c.p..q]);
    var d := c.(st := CountMore(WithName(c.st, NameSteps(NameOf(c.st), data[c.p..q])), q - c.p), p := q);
    if d.st.errno != OK {
      NameOverflows(c, m, data, q, d);
    } else {
      assert d.st == Count(r.st);
      assert d.(st := r.st) == c.(st := r.st, p := q);
      if data[q] == ':' as int {
        ColonRead(d, r, data);
        StepRan(c, m, CallbackData(d, Field, data, q).(st := d.st.(state := HeaderValueDiscardWs), p := q + 1), data, q);
      } else {
        BadNameRead(d, r, data);
        StepFails(c, m, d.(st := d.st.(errno := INVALID_HEADER_TOKEN)), data, q);
      }
    }
  }

  /** `case s_header_field:` */
  method FieldCase(c: Locals, data: seq<byte>, ghost m: Machine) returns (c': Locals)
    requires AtCase(c, m, data) && m.st.state == HeaderField
    ensures Ran(c.p, m, c', data)
  {
    hide Act, Token, NameSteps, Ran;
    var n, q := ScanName(NameOf(c.st), data, c.p);
    if q == |data| {
      assert data[c.p..q] == data[c.p..];
      NameAtEnd(c, m, data);
      return AtLast(c, WithName(c.st, n), data);
    }
    NameAtStop(c, m, data, q);
    c' := c.(st := CountMore(WithName(c.st, n), q - c.p), p := q);
    if c'.st.errno != OK {
      return;
    }
    if data[q] == ':' as int {
      c' := CallbackData(c', Field, data, q).(st := c'.st.(state := HeaderValueDiscardWs), p := q + 1);
    } else {
      c' := c'.(st := c'.st.(errno := INVALID_HEADER_TOKEN));
    }
  }

  // ---------- case s_header_value ----------

  /** The locals after the value octets up to `q`, as long as the header fits. */
  lemma ValueReached(c: Locals, m: Machine, data: seq<byte>, q: nat)
    requires AtCase(c, m, data) && m.st.state == HeaderValue && c.p <= q <= |data|
    requires ValueRead(ValueOf(c.st), c.st.lenient, data, c.p, q)
    ensures if m.st.nread + (q - c.p) <= MAX_HEADER_SIZE then
              var v := ValueSteps(ValueOf(c.st), c.st.lenient, data[c.p..q]);
              var st := WithValue(c.st, v).(nread := m.st.nread + (q - c.p));
              Between(c.(st := st, p := q), Run(m, data[c.p..q]), data)
            else Overflowed(m, data[c.p..q], Run(m, data[c.p..q])) && m.log == c.log && m.consumed == c.p
  {
    hide Act, ValueSteps, MarkOk, Valid, ByteStep, Run;
    FieldMark(m);
    assert ValueOf(c.st) == ValueOf(m.st);
    RunValue(m, data[c.p..q]);
    RunStaysBetween(m, data[c.p..q]);
    Extended(c, m, data, q);
  }

  /** The parser after the scan, with the octets counted. */
  function ScannedTo(c: Locals, v: ValueScan, q: nat): Locals
    requires c.p <= q
  {
    c.(st := CountMore(WithValue(c.st, v), q - c.p), p := q)
  }

  /** Counting the octets of a run afterwards is counting each of them. */
  lemma CountLater(st: Parser, k: nat)
    requires st.errno == OK && ParsingHeader(st.state) && st.nread > 0
    ensures var before := st.(nread := st.nread - 1 + k);
      if CountMore(st, k).errno == OK then CountMore(st, k) == Count(before) && before.nread < MAX_HEADER_SIZE
      else before.nread >= MAX_HEADER_SIZE
  {
  }

  lemma ValueCounted(st: Parser)
    requires st.errno == OK && st.state == HeaderValue && Count(st).errno == OK
    ensures ParsingHeader(HeaderValue) && Count(st) == st.(nread := st.nread + 1)
  {
  }

  lemma ValueAtCase(c: Locals, m: Machine, data: seq<byte>, q: nat, v: ValueScan)
    requires AtCase(c, m, data) && m.st.state == HeaderValue && c.p <= q < |data|
    requires ValueRead(ValueOf(c.st), c.st.lenient, data, c.p, q)
    requires v == ValueSteps(ValueOf(c.st), c.st.lenient, data[c.p..q])
    ensures var r, d := Run(m, data[c.p..q]), ScannedTo(c, v, q);
      if d.st.errno == OK then AtCase(d, r, data) && r.st.state == HeaderValue && ScanOf(r.st, v, c.st.lenient)
      else Overflows(c, r, q)
  {
    hide Act, ValueSteps, MarkOk, Valid, ByteStep, Run, Depicts, WithValue, ValueOf, ScanOf, CountMore, Count,
         ParsingHeader;
    ValueCounted(m.st);
    CountLater(WithValue(c.st, v), q - c.p);
    ValueReached(c, m, data, q);
    var r, d := Run(m, data[c.p..q]), ScannedTo(c, v, q);
    if d.st.errno == OK {
      assert d.(st := r.st) == c.(st := r.st, p := q);
      ScanOfWith(c.st, v, r.st.nread);
    }
  }

  /** The value scan carried by a parser. */
  predicate ScanOf(st: Parser, v: ValueScan, lenient: bool) {
    ValueOf(st) == v && st.lenient == lenient
  }

  lemma ScanOfWith(st: Parser, v: ValueScan, n: nat)
    ensures ScanOf(WithValue(st, v).(nread := n), v, st.lenient)
  {
  }

  lemma ValueAtEnd(c: Locals, m: Machine, data: seq<byte>, v: ValueScan)
    requires AtCase(c, m, data) && m.st.state == HeaderValue
    requires ValueRead(ValueOf(c.st), c.st.lenient, data, c.p, |data|)
    requires v == ValueSteps(ValueOf(c.st), c.st.lenient, data[c.p..])
    ensures Ran(c.p, m, AtLast(c, WithValue(c.st, v), data), data)
  {
    hide Act, ValueSteps, Run, WithValue, ValueOf, ByteStep, MarkOk, Valid, Depicts, ValueRead;
    assert c.st.nread == m.st.nread + 1;
    assert data[c.p..|data|] == data[c.p..];
    ValueReached(c, m, data, |data|);
  }

  lemma ActLineEnd(st: Parser, ch: byte)
    requires st.errno == OK && st.state == HeaderValue && (ch == CR || ch == LF)
    ensures Act(st, ch) == Effect(st.(state := HeaderAlmostDone), Close, if ch == CR then Consume else Again)
  {
    hide Lawful;
  }

  /** CR closes the value. */
  lemma CrRead(d: Locals, r: Machine, data: seq<byte>)
    requires AtCase(d, r, data) && r.st.state == HeaderValue && data[d.p] == CR
    ensures 0 <= d.marks.headerValue <= d.p
    ensures var r' := ByteStep(r, CR);
      && Alive(r')
      && Mirrors(CallbackData(d, Value, data, d.p).(st := d.st.(state := HeaderAlmostDone), p := d.p + 1), r', data)
  {
    hide Act, Valid, ByteStep, MarkOk;
    FieldMark(r);
    ActLineEnd(d.st, CR);
    StepConsume(r, CR, Act(d.st, CR));
    CallbackDepicts(d.(st := r.st), r, Value, data);
    AdvanceDepicts(CallbackData(d, Value, data, d.p).(st := r.st), Flush(r), data);
  }

  /** The machine after LF has closed the value and before the reexecution. */
  ghost function LfClosed(d: Locals, r: Machine): Machine {
    Flush(r).(st := d.st.(state := HeaderAlmostDone))
  }

  /** LF closes the value, and is then read again as the end of the line. */
  lemma LfRead(d: Locals, r: Machine, data: seq<byte>)
    requires AtCase(d, r, data) && r.st.state == HeaderValue && data[d.p] == LF
    ensures ByteStep(r, LF) == Advance(Dispatch(LfClosed(d, r), LF), LF)
  {
    hide Act, Valid, Dispatch, Advance;
    FieldMark(r);
    ActLineEnd(d.st, LF);
    DispatchOnce(r.(st := d.st), LF, Act(d.st, LF));
  }

  lemma LfMirrors(d: Locals, r: Machine, data: seq<byte>)
    requires AtCase(d, r, data) && r.st.state == HeaderValue
    ensures 0 <= d.marks.headerValue <= d.p && MarkOk(LfClosed(d, r))
    ensures Mirrors(CallbackData(d, Value, data, d.p).(st := d.st.(state := HeaderAlmostDone)), LfClosed(d, r), data)
  {
    hide Act, Valid;
    FieldMark(r);
    CallbackDepicts(d.(st := r.st), r, Value, data);
  }

  lemma BadValueRead(d: Locals, r: Machine, data: seq<byte>, v: ValueScan)
    requires AtCase(d, r, data) && r.st.state == HeaderValue && data[d.p] != CR && data[d.p] != LF
    requires SameFailedScan(v, ValueStep(ValueOf(r.st), r.st.lenient, data[d.p]))
    ensures var r' := ByteStep(r, data[d.p]);
      r'.st.errno == v.errno && r'.log == d.log && r'.consumed == d.p && !r'.exited
      && r'.st == WithValue(d.st, ValueStep(ValueOf(r.st), r.st.lenient, data[d.p]))
  {
    hide Act, Valid, ByteStep, MarkOk, ValueStep;
    ActValue(d.st, data[d.p]);
    ValueOfNread(r.st, d.st.nread);
    StepConsume(r, data[d.p], Act(d.st, data[d.p]));
  }

  /** Rejecting an octet: the locals keep the count they had when the loop was entered. */
  lemma ValueRejected(c: Locals, m: Machine, data: seq<byte>, q: nat, v: ValueScan)
    requires AtCase(c, m, data) && m.st.state == HeaderValue && c.p <= q <= |data|
    requires ValueScanned(ValueOf(c.st), c.st.lenient, data, c.p, v, q, Bad)
    ensures Ran(c.p, m, c.(st := WithValue(c.st, v), p := q), data)
  {
    hide Act, ValueSteps, ValueStep, MarkOk, Valid, ByteStep, Run, Depicts, ValueOf;
    var w := ValueSteps(ValueOf(c.st), c.st.lenient, data[c.p..q]);
    var d := ScannedTo(c, w, q);
    var r := Run(m, data[c.p..q]);
    var c' := c.(st := WithValue(c.st, v), p := q);
    ValueAtCase(c, m, data, q, w);
    if d.st.errno != OK {
      OverflowFails(c, m, c', data, q);
    } else {
      BadValueRead(d, r, data, v);
      StepFails(c, m, c', data, q);
    }
  }

  /** LF read again: the line is over. */
  lemma LfAgain(d: Machine)
    requires d.st.errno == OK && d.st.state == HeaderAlmostDone
    ensures Dispatch(d, LF) == d.(st := d.st.(state := HeaderValueLws), exited := false)
  {
    hide Lawful;
  }

  /** A header longer than the limit fails, whatever the loop made of its tail. */
  lemma ValueTooLong(c: Locals, m: Machine, data: seq<byte>, q: nat, c': Locals)
    requires AtCase(c, m, data) && m.st.state == HeaderValue && c'.st.errno != OK
    requires OneValueMore(c.log, c'.log) && c'.p + 1 >= q
    requires TooLong(ValueOf(c.st), c.st.lenient, data, c.p, q)
    ensures Ran(c.p, m, c', data)
  {
    hide Act, ValueSteps, MarkOk, Valid, ByteStep, Run, Depicts, WithValue, ValueOf, Ran;
    ValueReached(c, m, data, c.p + MAX_HEADER_SIZE);
    OverflowFails(c, m, c', data, c.p + MAX_HEADER_SIZE);
  }

  lemma ValueCr(c: Locals, m: Machine, data: seq<byte>, q: nat, v: ValueScan)
    requires AtCase(c, m, data) && m.st.state == HeaderValue && c.p <= q <= |data|
    requires ValueScanned(ValueOf(c.st), c.st.lenient, data, c.p, v, q, AtLineEnd) && data[q] == CR
    ensures var d := ScannedTo(c, v, q);
      && MarkOf(c.marks, Value) <= q
      && var c' := CallbackData(d, Value, data, q).(st := d.st.(state := HeaderAlmostDone));
         Ran(c.p, m, if d.st.errno == OK then c'.(p := q + 1) else c', data)
  {
    hide Act, ValueSteps, MarkOk, Valid, ByteStep, Run, Depicts, WithValue, ValueOf, ScanOf, Ran;
    FieldMark(m);
    ValueAtCase(c, m, data, q, v);
    var r, d := Run(m, data[c.p..q]), ScannedTo(c, v, q);
    CaseBounds(c, m, data);
    var c' := CallbackData(d, Value, data, q).(st := d.st.(state := HeaderAlmostDone));
    if d.st.errno == OK {
      CrRead(d, r, data);
      StepRan(c, m, c'.(p := q + 1), data, q);
    } else {
      OverflowFails(c, m, c', data, q);
    }
  }

  lemma CaseBounds(c: Locals, m: Machine, data: seq<byte>)
    requires AtCase(c, m, data)
    ensures MarkOf(c.marks, Value) <= c.p < |data| && c.st.errno == OK
    ensures Alive(m) && MarkOk(m) && Valid(m.st)
    ensures m.st.state == HeaderValue ==> c.st.nread > 0
  {
  }

  lemma ValueLf(c: Locals, m: Machine, data: seq<byte>, q: nat, v: ValueScan)
    requires AtCase(c, m, data) && m.st.state == HeaderValue && c.p <= q <= |data|
    requires ValueScanned(ValueOf(c.st), c.st.lenient, data, c.p, v, q, AtLineEnd) && data[q] == LF
    ensures var d, r := ScannedTo(c, v, q), Run(m, data[c.p..q]);
      if d.st.errno == OK then
        && AtCase(d, r, data) && r.st.state == HeaderValue
      else Ran(c.p, m, d, data)
  {
    hide Act, ValueSteps, MarkOk, Valid, ByteStep, Run, Depicts, WithValue, ValueOf, ScanOf, Ran;
    ValueAtCase(c, m, data, q, v);
    var r, d := Run(m, data[c.p..q]), ScannedTo(c, v, q);
    if d.st.errno != OK {
      OverflowFails(c, m, d, data, q);
    }
  }

  /** The last part of the LF branch: the line end is read again by the switch. */
  method LfCase(d: Locals, data: seq<byte>, ghost r: Machine) returns (c': Locals)
    requires AtCase(d, r, data) && r.st.state == HeaderValue && data[d.p] == LF
    ensures c'.p == d.p + 1 && Alive(ByteStep(r, LF)) && Mirrors(c', ByteStep(r, LF), data)
  {
    hide Act, Valid, MarkOk, Depicts, ByteStep, Flush;
    LfRead(d, r, data);
    LfMirrors(d, r, data);
    LfAgain(LfClosed(d, r));
    var exited;
    c', exited := Octet(CallbackData(d, Value, data, d.p).(st := d.st.(state := HeaderAlmostDone)), data, LfClosed(d, r));
    ghost var r' := Dispatch(LfClosed(d, r), LF);
    AdvanceDepicts(c', r', data);
    c' := c'.(p := c'.p + 1);
  }

  /** `case s_header_value:` */
  method ValueCase(c: Locals, data: seq<byte>, ghost m: Machine) returns (c': Locals)
    requires AtCase(c, m, data) && m.st.state == HeaderValue
    ensures Ran(c.p, m, c', data)
  {
    hide Act, ValueSteps, ValueStep, Ran, Run, ByteStep, MarkOk, Valid, Depicts, WithValue, ValueOf, AtCase, CallbackData;
    assert MarkOf(c.marks, Value) <= c.p by { CaseBounds(c, m, data); }
    assert c.p < |data| && c.st.errno == OK && c.st.nread > 0 by { CaseBounds(c, m, data); }
    var v, q, stop := ScanValue(ValueOf(c.st), c.st.lenient, data, c.p);
    ghost var exact := ValueScanned(ValueOf(c.st), c.st.lenient, data, c.p, v, q, stop);
    if stop.Bad? {
      c' := c.(st := WithValue(c.st, v), p := q);
      if exact {
        ValueRejected(c, m, data, q, v);
      } else {
        ValueTooLong(c, m, data, q, c');
      }
    } else if stop.AtEnd? {
      c' := AtLast(c, WithValue(c.st, v), data);
      if exact {
        assert data[c.p..q] == data[c.p..];
        ValueAtEnd(c, m, data, v);
      } else {
        ValueTooLong(c, m, data, q, c');
      }
    } else if data[q] == CR {
      var d := ScannedTo(c, v, q);
      c' := CallbackData(d, Value, data, q).(st := d.st.(state := HeaderAlmostDone));
      if d.st.errno == OK {
        c' := c'.(p := q + 1);
      }
      CallbackMore(d, data, q);
      if exact {
        ValueCr(c, m, data, q, v);
      } else {
        ValueTooLong(c, m, data, q, c');
      }
    } else {
      c' := ScannedTo(c, v, q);
      if exact {
        ValueLf(c, m, data, q, v);
      } else {
        ValueTooLong(c, m, data, q, c');
      }
      if c'.st.errno == OK {
        c' := LfCase(c', data, Run(m, data[c.p..q]));
        CaseBounds(c, m, data);
        StepRan(c, m, c', data, q);
      }
    }
  }

  lemma FieldMark(m: Machine)
    requires MarkOk(m)
    ensures m.st.state == HeaderField ==> m.mark.Opened? && m.mark.part == Field
    ensures m.st.state == HeaderValue ==> m.mark.Opened? && m.mark.part == Value
    ensures InBody(m.st.state) ==> BodyMark(m.mark)
  {
  }

  /** A mark left alone covers the octets skipped. */
  lemma Extended(c: Locals, m: Machine, data: seq<byte>, q: nat)
    requires c.p <= q <= |data| && m.mark.Opened? && Depicts(c.marks, m.mark, data, c.p)
    ensures Depicts(c.marks, m.mark.(bytes := m.mark.bytes + data[c.p..q]), data, q)
  {
    var i := MarkOf(c.marks, m.mark.part);
    assert data[i..q] == data[i..c.p] + data[c.p..q];
  }

  // ---------- bodies ----------

  /** A case that may also leave the call early, after handing the connection over. */
  ghost predicate RanOrExited(p: nat, m: Machine, c': Locals, exited: bool, data: seq<byte>) {
    if exited then
      && p < c'.p <= |data|
      && var r := Run(m, data[p..c'.p]);
         r.exited && r.mark == Closed && r.st.errno == OK && Mirrors(c', r.(exited := false), data)
    else Ran(p, m, c', data)
  }

  /** The octet at `c.p`, from the count to `p++`. */
  method OctetCase(c: Locals, data: seq<byte>, ghost m: Machine) returns (c': Locals, exited: bool)
    requires AtCase(c, m, data)
    ensures RanOrExited(c.p, m, c', exited, data)
  {
    hide Act, Valid, Depicts, Run, Dispatch, MarkOk, Count;
    ghost var d := m.(st := c.st);
    assert MarkOk(d) by { MarkOkCounted(m); }
    c', exited := Octet(c, data, d);
    assert ByteStep(m, data[c.p]) == Advance(Dispatch(d, data[c.p]), data[c.p]);
    assert data[c.p..c.p] == [] && Run(m, []) == m by { RunEmpty(m); }
    if c'.st.errno != OK {
      StepFails(c, m, c', data, c.p);
      return;
    }
    AdvanceDepicts(c', Dispatch(d, data[c.p]).(exited := false), data);
    RunOneMore(m, data, c.p, c.p);
    c' := c'.(p := c.p + 1);
    if !exited {
      StepRan(c, m, c', data, c.p);
    }
  }

  lemma MarkOkCounted(m: Machine)
    requires MarkOk(m)
    ensures MarkOk(m.(st := Count(m.st)))
  {
  }

  function ToRead(c: Locals, data: seq<byte>): nat
    requires c.p <= |data|
  {
    if c.st.contentLength < |data| - c.p then c.st.contentLength else |data| - c.p
  }

  lemma BodyMarked(c: Locals, m: Machine, data: seq<byte>, q: nat)
    requires AtCase(c, m, data) && InBody(m.st.state) && c.p <= q <= |data|
    ensures BodyMark(m.mark) && c.st == m.st
    ensures 0 <= MarkHere(c, Body).marks.body <= c.p
    ensures Depicts(MarkHere(c, Body).marks, Opened(Body, BodySoFar(m.mark) + data[c.p..q]), data, q)
  {
    hide Act, Valid;
    FieldMark(m);
    var i := MarkHere(c, Body).marks.body;
    assert data[i..q] == data[i..c.p] + data[c.p..q];
    assert BodySoFar(m.mark) == data[i..c.p];
  }

  lemma IdentityLeft(c: Locals, m: Machine, data: seq<byte>, n: nat)
    requires AtCase(c, m, data) && m.st.state == BodyIdentity && 0 < n < m.st.contentLength && c.p + n <= |data|
    ensures Ran(c.p, m, MarkHere(c, Body).(st := c.st.(contentLength := c.st.contentLength - n), p := c.p + n), data)
  {
    hide Act, Valid, MarkOk, ByteStep, Run, Depicts, InBody, Count;
    BodyStates();
    ValidLength(m.st);
    BodyMarked(c, m, data, c.p + n);
    RunIdentity(m, data[c.p..c.p + n]);
    RunStaysBetween(m, data[c.p..c.p + n]);
  }

  lemma ValidLength(st: Parser)
    requires Valid(st)
    ensures st.state == BodyIdentity || st.state == ChunkData ==> 0 < st.contentLength < ULLONG_MAX
  {
    hide HeaderOk, LengthOk;
  }

  lemma BodyStates()
    ensures InBody(BodyIdentity) && InBody(ChunkData) && InBody(BodyIdentityEof)
  {
  }

  /** The machine between the last body callback and the reexecution in `s_message_done`. */
  ghost function BodyDelivered(r: Machine, ch: byte): Machine {
    Perform(r, Last, ch).(st := r.st.(contentLength := 0, state := MessageDone))
  }

  lemma LastRead(r: Machine, ch: byte)
    requires Alive(r) && r.st.state == BodyIdentity && r.st.contentLength == 1 && BodyMark(r.mark)
    ensures ByteStep(r, ch) == Advance(Dispatch(BodyDelivered(r, ch), ch), ch)
    ensures MarkOk(BodyDelivered(r, ch)) && BodyDelivered(r, ch).mark == Closed
  {
    hide Act, Advance;
    StepUncounted(r, ch);
    ActLast(r.st, ch);
    DispatchOnce(r, ch, Act(r.st, ch));
  }

  /** The locals after the body callback that takes the last octet with it. */
  function DeliverBody(c: Locals, data: seq<byte>, n: nat): Locals
    requires 0 < n && c.p + n <= |data| && MarkHere(c, Body).marks.body <= c.p
  {
    CallbackData(MarkHere(c, Body), Body, data, c.p + n)
      .(st := c.st.(contentLength := 0, state := MessageDone), p := c.p + n - 1)
  }

  lemma IdentityDone(c: Locals, m: Machine, data: seq<byte>, n: nat)
    requires AtCase(c, m, data) && m.st.state == BodyIdentity && n == m.st.contentLength && c.p + n <= |data|
    ensures n > 0 && MarkHere(c, Body).marks.body <= c.p
    ensures var r, ch := Run(m, data[c.p..c.p + n - 1]), data[c.p + n - 1];
      && r.st.errno == OK
      && ByteStep(r, ch) == Advance(Dispatch(BodyDelivered(r, ch), ch), ch)
      && MarkOk(BodyDelivered(r, ch))
      && Mirrors(DeliverBody(c, data, n), BodyDelivered(r, ch), data)
  {
    hide Act, Valid, MarkOk, ByteStep, Run, Depicts, InBody, Count, Advance, Dispatch;
    BodyStates();
    ValidLength(m.st);
    BodyMarked(c, m, data, c.p + n);
    if n > 1 {
      RunIdentity(m, data[c.p..c.p + n - 1]);
    } else {
      assert data[c.p..c.p + n - 1] == [];
      RunEmpty(m);
    }
    var r, ch := Run(m, data[c.p..c.p + n - 1]), data[c.p + n - 1];
    LastRead(r, ch);
    assert data[c.p..c.p + n] == data[c.p..c.p + n - 1] + [ch];
    assert BodySoFar(r.mark) + [ch] == BodySoFar(m.mark) + data[c.p..c.p + n];
    DeliveredMirrors(c, m, r, data, n);
  }

  lemma DeliveredMirrors(c: Locals, m: Machine, r: Machine, data: seq<byte>, n: nat)
    requires 0 < n && c.p + n <= |data| && 0 <= MarkHere(c, Body).marks.body <= c.p
    requires Mirrors(c, m, data) && BodyMark(m.mark)
    requires r == m.(st := r.st, consumed := c.p + n - 1, mark := r.mark) && BodyMark(r.mark)
    requires r.st == c.st.(contentLength := 1)
    requires BodySoFar(r.mark) + [data[c.p + n - 1]] == BodySoFar(m.mark) + data[c.p..c.p + n]
    requires Depicts(MarkHere(c, Body).marks, Opened(Body, BodySoFar(m.mark) + data[c.p..c.p + n]), data, c.p + n)
    ensures Mirrors(DeliverBody(c, data, n), BodyDelivered(r, data[c.p + n - 1]), data)
  {
    var i := MarkHere(c, Body).marks.body;
    assert data[i..c.p + n] == BodySoFar(m.mark) + data[c.p..c.p + n];
  }

  lemma IdentityStarts(c: Locals, m: Machine, data: seq<byte>)
    requires AtCase(c, m, data) && InBody(m.st.state) && !m.st.state.ChunkDataAlmostDone?
    ensures c.st == m.st && c.p < |data|
    ensures m.st.state != BodyIdentityEof ==> 0 < c.st.contentLength
  {
    hide Act, MarkOk, Depicts, HeaderOk, LengthOk;
  }

  /** After the last octet the message is complete, and nothing can fail any more. */
  lemma DoneSucceeds(d: Machine, ch: byte)
    requires d.st.errno == OK && d.st.state == MessageDone
    ensures Dispatch(d, ch).st.errno == OK
  {
    hide Act;
    ActMessageDone(d.st, ch);
    DispatchOnce(d, ch, Act(d.st, ch));
  }

  /** The branch of `case s_body_identity` that exhausts the length: the final octet is delivered
      with the rest of the body, and seen again by `s_message_done`. */
  method IdentityLast(c: Locals, data: seq<byte>, ghost m: Machine, n: nat) returns (c': Locals, exited: bool)
    requires AtCase(c, m, data) && m.st.state == BodyIdentity
    requires n == m.st.contentLength && 0 < n && c.p + n <= |data| && MarkHere(c, Body).marks.body <= c.p
    ensures RanOrExited(c.p, m, c', exited, data)
  {
    hide Act, Valid, Depicts, Run, Dispatch, MarkOk, Count, ByteStep, AtCase, Mirrors, RanOrExited, Advance, BodyDelivered,
         DeliverBody, MarkHere;
    CaseBounds(c, m, data);
    IdentityDone(c, m, data, n);
    var q := c.p + n - 1;
    ghost var d := BodyDelivered(Run(m, data[c.p..q]), data[q]);
    DeliveredAt(c, data, n, Run(m, data[c.p..q]));
    c', exited := Octet(DeliverBody(c, data, n), data, d);
    IdentityOver(c, m, c', exited, data, q);
    c' := c'.(p := q + 1);
  }

  lemma DeliveredAt(c: Locals, data: seq<byte>, n: nat, r: Machine)
    requires 0 < n && c.p + n <= |data| && MarkHere(c, Body).marks.body <= c.p && c.st.errno == OK && r.st.errno == OK
    ensures DeliverBody(c, data, n).p == c.p + n - 1 && DeliverBody(c, data, n).st.errno == OK
    ensures BodyDelivered(r, data[c.p + n - 1]).st.errno == OK
  {
  }

  /** The message is over: the octet was consumed, and the call goes on or hands over. */
  lemma IdentityOver(c: Locals, m: Machine, c': Locals, exited: bool, data: seq<byte>, q: nat)
    requires AtCase(c, m, data) && c.p <= q < |data| && c'.p == q
    requires var r, ch := Run(m, data[c.p..q]), data[q];
      var d := BodyDelivered(r, ch);
      && r.st.errno == OK && ByteStep(r, ch) == Advance(Dispatch(d, ch), ch)
      && exited == Dispatch(d, ch).exited
      && (exited ==> c'.st.errno == OK && Dispatch(d, ch).mark == Closed)
      && Mirrors(c', Dispatch(d, ch).(exited := false), data)
    ensures RanOrExited(c.p, m, c'.(p := q + 1), exited, data)
  {
    hide Act, Valid, Depicts, Run, Dispatch, MarkOk, Count, ByteStep, Ran, AtCase;
    CaseBounds(c, m, data);
    var d := BodyDelivered(Run(m, data[c.p..q]), data[q]);
    DoneSucceeds(d, data[q]);
    AdvanceDepicts(c', Dispatch(d, data[q]).(exited := false), data);
    RunOneMore(m, data, c.p, q);
    if !exited {
      StepRan(c, m, c'.(p := q + 1), data, q);
    }
  }

  /** `case s_body_identity:` */
  method IdentityCase(c: Locals, data: seq<byte>, ghost m: Machine) returns (c': Locals, exited: bool)
    requires AtCase(c, m, data) && m.st.state == BodyIdentity
    ensures RanOrExited(c.p, m, c', exited, data)
  {
    hide Act, Valid, Depicts, Run, MarkOk, Count, ByteStep, Ran, InBody, AtCase;
    BodyStates();
    IdentityStarts(c, m, data);
    var n := ToRead(c, data);
    if n < c.st.contentLength {
      IdentityLeft(c, m, data, n);
      c', exited := MarkHere(c, Body).(st := c.st.(contentLength := c.st.contentLength - n), p := c.p + n), false;
    } else {
      BodyMarked(c, m, data, c.p);
      c', exited := IdentityLast(c, data, m, n);
    }
  }

  lemma DataRead(c: Locals, m: Machine, data: seq<byte>, n: nat)
    requires AtCase(c, m, data) && m.st.state == ChunkData && 0 < n <= m.st.contentLength && c.p + n <= |data|
    ensures Ran(c.p, m, MarkHere(c, Body).(st := DataLeft(m.st, n), p := c.p + n), data)
  {
    hide Act, Valid, MarkOk, ByteStep, Run, Depicts, InBody, Count, DataLeft;
    BodyStates();
    ValidLength(m.st);
    BodyMarked(c, m, data, c.p + n);
    RunChunkData(m, data[c.p..c.p + n]);
    RunStaysBetween(m, data[c.p..c.p + n]);
    assert DataLeft(m.st, n).errno == OK by { DataLeftOk(m.st, n); }
  }

  lemma DataLeftOk(st: Parser, n: nat)
    requires n <= st.contentLength
    ensures DataLeft(st, n).errno == st.errno
  {
  }

  /** `case s_chunk_data:` */
  method ChunkDataCase(c: Locals, data: seq<byte>, ghost m: Machine) returns (c': Locals)
    requires AtCase(c, m, data) && m.st.state == ChunkData
    ensures Ran(c.p, m, c', data)
  {
    hide Act, Valid, MarkOk, Ran, Depicts, InBody, Count, AtCase;
    BodyStates();
    IdentityStarts(c, m, data);
    var n := ToRead(c, data);
    DataRead(c, m, data, n);
    c' := MarkHere(c, Body).(st := c.st.(contentLength := c.st.contentLength - n), p := c.p + n);
    if c'.st.contentLength == 0 {
      c' := c'.(st := c'.st.(state := ChunkDataAlmostDone));
    }
  }

  /** `case s_body_identity_eof:` */
  method EofCase(c: Locals, data: seq<byte>, ghost m: Machine) returns (c': Locals)
    requires AtCase(c, m, data) && m.st.state == BodyIdentityEof
    ensures Ran(c.p, m, c', data)
  {
    hide Act, Valid, MarkOk, ByteStep, Run, Depicts, InBody, Count;
    BodyStates();
    IdentityStarts(c, m, data);
    BodyMarked(c, m, data, |data|);
    RunEof(m, data[c.p..|data|]);
    RunStaysBetween(m, data[c.p..|data|]);
    c' := MarkHere(c, Body).(p := |data|);
  }

  // ---------- the whole call ----------

  /** The longest buffer for which the `(uint32_t)` casts of COUNT_HEADER_SIZE lose nothing. */
  const MAX_BUFFER: nat := 0xFFFF_FFFF - MAX_HEADER_SIZE

  /** The marks set on entry. */
  function EntryMarks(s: State): Marks {
    match OpenPart(s) case Some(k) => SetMark(NoMarks, k, 0) case None => NoMarks
  }

  lemma EntryBetween(m: Machine, data: seq<byte>)
    requires Alive(m) && m.consumed == 0 && Valid(m.st)
    ensures Between(Locals(m.st, m.log, EntryMarks(m.st.state), 0), Begin(m), data)
  {
    hide Valid;
  }

  /** One pass of the main loop: COUNT_HEADER_SIZE(1), then the switch. */
  method LoopBody(c: Locals, data: seq<byte>, ghost m: Machine) returns (c': Locals, exited: bool)
    requires Between(c, m, data) && c.p < |data|
    ensures RanOrExited(c.p, m, c', exited, data)
  {
    hide Act, Valid, Depicts, Run, MarkOk, Count, ByteStep, Ran;
    var counted := c.(st := Count(c.st));
    exited := false;
    if counted.st.errno != OK {
      CountFails(c, m, counted, data);
      return counted, false;
    }
    assert counted.(st := m.st) == c;
    if c.st.state.HeaderField? {
      c' := FieldCase(counted, data, m);
    } else if c.st.state.HeaderValue? {
      c' := ValueCase(counted, data, m);
    } else if c.st.state.BodyIdentity? {
      c', exited := IdentityCase(counted, data, m);
    } else if c.st.state.ChunkData? {
      c' := ChunkDataCase(counted, data, m);
    } else if c.st.state.BodyIdentityEof? {
      c' := EofCase(counted, data, m);
    } else {
      c', exited := OctetCase(counted, data, m);
    }
  }

  lemma CountFails(c: Locals, m: Machine, counted: Locals, data: seq<byte>)
    requires Between(c, m, data) && c.p < |data| && counted == c.(st := Count(c.st)) && counted.st.errno != OK
    ensures Ran(c.p, m, counted, data)
  {
    hide Act, Valid, Depicts, Run, MarkOk, Ran;
    RunEmpty(m);
    assert data[c.p..c.p] == [];
    OverflowFails(c, m, counted, data, c.p);
  }

  /** What a finished call leaves behind, against one call of the one-octet form: without an error
      exactly the same; with one, an error too (see `Failed`). */
  ghost predicate Agrees(st: Parser, log: seq<Event>, parsed: nat, exited: bool, f: Machine) {
    if st.errno == OK then
      st == f.st && log == f.log && parsed == f.consumed && exited == f.exited
    else Failed(Locals(st, log, NoMarks, parsed), f) && !exited
  }

  /** The five callbacks for marks left over when the bytes run out: at most one of them is made. */
  method FlushMarks(c: Locals, data: seq<byte>, ghost m: Machine) returns (c': Locals)
    requires Mirrors(c, m, data) && m.st.errno == OK && c.p == |data|
    ensures c'.st == c.st && c'.log == Flush(m).log && c'.p == c.p
  {
    c' := CallbackData(c, Field, data, c.p);
    c' := CallbackData(c', Value, data, c.p);
    c' := CallbackData(c', Url, data, c.p);
    c' := CallbackData(c', Body, data, c.p);
    c' := CallbackData(c', Status, data, c.p);
  }

  /** http_parser_execute on a nonempty buffer and a parser without an error. */
  method Parse(st: Parser, log: seq<Event>, data: seq<byte>) returns (c: Locals, exited: bool)
    requires st.errno == OK && Valid(st) && 0 < |data| <= MAX_BUFFER
    ensures Agrees(c.st, c.log, c.p, exited, Feed(Machine(st, log, Closed, 0, false), data))
    ensures c.st.errno == OK ==> Valid(c.st)
  {
    hide Act, Valid, Run, MarkOk, Depicts, Ran, Failed;
    ghost var m := Machine(st, log, Closed, 0, false);
    ghost var b := Begin(m);
    EntryBetween(m, data);
    c, exited := Locals(st, log, EntryMarks(st.state), 0), false;
    RunEmpty(b);
    assert data[..0] == [];
    while c.p < |data|
      invariant c.p <= |data| && !exited && Between(c, Run(b, data[..c.p]), data)
      decreases |data| - c.p
    {
      ghost var p, r := c.p, Run(b, data[..c.p]);
      c, exited := LoopBody(c, data, r);
      Onwards(b, data, p, c, exited, r);
      if c.st.errno != OK || exited {
        return;
      }
    }
    assert data[..c.p] == data;
    c := FlushMarks(c, data, Run(b, data));
  }

  /** Joining a pass of the loop to the run before it. */
  lemma Onwards(b: Machine, data: seq<byte>, p: nat, c: Locals, exited: bool, r: Machine)
    requires p < |data| && r == Run(b, data[..p]) && Alive(r) && Valid(b.st)
    requires RanOrExited(p, r, c, exited, data)
    ensures if c.st.errno == OK && !exited then p < c.p <= |data| && Between(c, Run(b, data[..c.p]), data)
            else Agrees(c.st, c.log, c.p, exited, Finish(Run(b, data))) && (c.st.errno == OK ==> Valid(c.st))
  {
    hide ByteStep, Run, Valid, MarkOk;
    assert data == data[..p] + data[p..];
    RunConcat(b, data[..p], data[p..]);
    if c.st.errno == OK {
      assert data[..c.p] == data[..p] + data[p..c.p];
      RunConcat(b, data[..p], data[p..c.p]);
    }
    if exited {
      assert data == data[..c.p] + data[c.p..];
      RunConcat(b, data[..c.p], data[c.p..]);
      RunStopped(Run(b, data[..c.p]), data[c.p..]);
      RunKeeps(b, data[..c.p]);
    }
  }

  // ---------- the parser object ----------

  /** http_parser_execute with len == 0: the end of the input. */
  function AtEof(st: Parser, log: seq<Event>): (Parser, seq<Event>, nat) {
    if st.state == BodyIdentityEof then (st, log + [MessageComplete], 0)
    else if st.state in {Dead, StartReqOrRes, StartRes, StartReq} then (st, log, 0)
    else (st.(errno := INVALID_EOF_STATE), log, 1)
  }

  class HttpParser {
    var parser: Parser
    var callbacks: seq<Event>

    ghost predicate Usable()
      reads this
    {
      parser.errno == OK ==> Valid(parser)
    }

    /** One call of the one-octet form from the current state. */
    ghost function FedWith(data: seq<byte>): Machine
      requires data != []
      reads this
    {
      Feed(Machine(parser, callbacks, Closed, 0, false), data)
    }

    /** http_parser_init */
    constructor (kind: Kind, verdict: Verdict)
      ensures parser == Init(kind, verdict) && callbacks == [] && Usable()
    {
      parser := Init(kind, verdict);
      callbacks := [];
    }

    /** http_parser_execute */
    method Execute(data: seq<byte>) returns (parsed: nat, ghost exited: bool)
      requires Usable() && |data| <= MAX_BUFFER
      modifies this
      ensures Usable()
      ensures old(parser.errno) != OK ==> parsed == 0 && parser == old(parser) && callbacks == old(callbacks)
      ensures old(parser.errno) == OK && data == [] ==>
        && (parser, callbacks, parsed) == AtEof(old(parser), old(callbacks))
        && callbacks == old(callbacks) + (if old(parser.state) == BodyIdentityEof then [MessageComplete] else [])
        && (if old(parser.state) in {BodyIdentityEof, Dead, StartReqOrRes, StartRes, StartReq} then
              parser == old(parser) && parsed == 0
            else parser == old(parser).(errno := INVALID_EOF_STATE) && parsed == 1)
      ensures old(parser.errno) == OK && data != [] ==>
        Agrees(parser, callbacks, parsed, exited, old(FedWith(data)))
    {
      exited := false;
      if parser.errno != OK {
        return 0, false;
      }
      if |data| == 0 {
        var (st, log, n) := AtEof(parser, callbacks);
        parser, callbacks, parsed := st, log, n;
        return;
      }
      var c, e := Parse(parser, callbacks, data);
      parser, callbacks, parsed, exited := c.st, c.log, c.p, e;
    }

    /** A stream delivered in pieces, one call of http_parser_execute each. Whatever the cut, the
        parser ends as after one call on the whole stream, and up to merging so do the callbacks. */
    method ExecuteAll(pieces: seq<seq<byte>>) returns (total: nat)
      requires Usable() && parser.errno == OK && |pieces| > 0
      requires NonemptyPieces(pieces) && forall i :: 0 <= i < |pieces| ==> |pieces[i]| <= MAX_BUFFER
      requires Alive(FedWith(Flatten(pieces)))
      modifies this
      ensures Usable()
      ensures parser == old(FedWith(Flatten(pieces))).st
      ensures Merge(callbacks) == Merge(old(FedWith(Flatten(pieces))).log)
      ensures total == old(FedWith(Flatten(pieces))).consumed
    {
      hide Feed, Merge, Flatten, Valid;
      ghost var m0 := Machine(parser, callbacks, Closed, 0, false);
      SplitInvariance(m0, pieces);
      total := 0;
      var i := 0;
      while i < |pieces|
        invariant 0 <= i <= |pieces| && Usable() && parser.errno == OK
        invariant FeedAll(Machine(parser, callbacks, Closed, total, false), pieces[i..]) == FeedAll(m0, pieces)
      {
        ghost var m := Machine(parser, callbacks, Closed, 0, false);
        ghost var k := total;
        assert pieces[i..][0] == pieces[i] && pieces[i..][1..] == pieces[i + 1..];
        FeedShift(m, k, pieces[i]);
        if !Alive(Feed(m, pieces[i])) {
          FeedAllStopped(Shift(Feed(m, pieces[i]), k), pieces[i + 1..]);
        }
        var n, exited := Execute(pieces[i]);
        FeedCloses(m, pieces[i]);
        total, i := total + n, i + 1;
        assert Machine(parser, callbacks, Closed, total, false) == Shift(Feed(m, pieces[i - 1]), k);
      }
    }
  }

  lemma FeedCloses(m: Machine, data: seq<byte>)
    requires Alive(m) && data != []
    ensures Feed(m, data).st.errno == OK ==> Feed(m, data).mark == Closed
  {
    hide Run;
  }
}
