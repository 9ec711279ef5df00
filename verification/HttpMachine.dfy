/** http_parser_execute as a fold of one octet after another: the parser, the callbacks made so
    far and the open mark. Cutting a stream into calls does not change what it means. */
module HttpMachine {
  import opened Bytes
  import opened HttpTypes
  import opened HttpAct

  /** A mark pointer: NULL, or the start of the octets seen since MARK. */
  datatype Mark = Closed | Opened(part: Part, bytes: seq<byte>)

  /** `consumed` counts the octets the calls report as parsed. `exited` records an early RETURN. */
  datatype Machine = Machine(st: Parser, log: seq<Event>, mark: Mark, consumed: nat, exited: bool)

  predicate Alive(m: Machine) {
    m.st.errno == OK && !m.exited
  }

  // ---------- one octet ----------

  function Flush(m: Machine): Machine {
    if m.mark.Closed? then m else m.(log := m.log + [Data(m.mark.part, m.mark.bytes)], mark := Closed)
  }

  /** The callbacks and mark updates of one case. */
  function Perform(m: Machine, out: Output, ch: byte): Machine {
    match out
    case Nothing => m
    case Open(k) => if m.mark.Closed? then m.(mark := Opened(k, [])) else m
    case Close => Flush(m)
    case Instant(k) => Flush(if m.mark.Closed? then m.(mark := Opened(k, [])) else m)
    case Last =>
      var o := if m.mark.Closed? then Opened(Body, []) else m.mark;
      m.(log := m.log + [Data(o.part, o.bytes + [ch])], mark := Closed)
    case Notify(e) => m.(log := m.log + [e])
  }

  /** The switch and its reexecutions. */
  function Dispatch(m: Machine, ch: byte): Machine
    requires m.st.errno == OK
    decreases Rank(m.st.state)
  {
    var e := Act(m.st, ch);
    var m' := Perform(m, e.out, ch).(st := e.st);
    if e.next == Again then Dispatch(m', ch) else m'.(exited := e.next == Exit)
  }

  /** COUNT_HEADER_SIZE(1), done at the top of the loop in the header states. */
  function Count(st: Parser): Parser {
    if !ParsingHeader(st.state) then st
    else if st.nread + 1 > MAX_HEADER_SIZE then st.(nread := st.nread + 1, errno := HEADER_OVERFLOW)
    else st.(nread := st.nread + 1)
  }

  /** `p++`: an open mark now also covers `ch`. A failing octet is not consumed. */
  function Advance(m: Machine, ch: byte): Machine {
    if m.st.errno != OK then m
    else m.(consumed := m.consumed + 1,
            mark := if m.mark.Closed? then Closed else Opened(m.mark.part, m.mark.bytes + [ch]))
  }

  function ByteStep(m: Machine, ch: byte): Machine {
    if !Alive(m) then m
    else
      var counted := m.(st := Count(m.st));
      if counted.st.errno != OK then counted else Advance(Dispatch(counted, ch), ch)
  }

  function Run(m: Machine, s: seq<byte>): Machine
    decreases |s|
  {
    if s == [] then m else Run(ByteStep(m, s[0]), s[1..])
  }

  lemma {:induction false} RunConcat(m: Machine, a: seq<byte>, b: seq<byte>)
    ensures Run(m, a + b) == Run(Run(m, a), b)
    decreases |a|
  {
    if a == [] {
      assert a + b == b;
    } else {
      assert (a + b)[0] == a[0] && (a + b)[1..] == a[1..] + b;
      RunConcat(ByteStep(m, a[0]), a[1..], b);
    }
  }

  lemma {:induction false} RunSnoc(m: Machine, a: seq<byte>, c: byte)
    ensures Run(m, a + [c]) == ByteStep(Run(m, a), c)
  {
    RunConcat(m, a, [c]);
    assert [c][1..] == [];
    assert Run(ByteStep(Run(m, a), c), []) == ByteStep(Run(m, a), c);
  }

  lemma RunTwo(m: Machine, a: byte, b: byte)
    ensures Run(m, [a, b]) == ByteStep(ByteStep(m, a), b)
  {
    hide ByteStep;
    assert [a, b] == [a] + [b];
    RunSnoc(m, [a], b);
    assert [a] == [] + [a];
    RunSnoc(m, [], a);
  }

  lemma RunCrlf(m: Machine)
    ensures Run(m, CRLF) == ByteStep(ByteStep(m, CR), LF)
  {
    RunTwo(m, CR, LF);
  }

  lemma RunEmpty(m: Machine)
    ensures Run(m, []) == m
  {
  }

  lemma StepStopped(m: Machine, ch: byte)
    requires !Alive(m)
    ensures ByteStep(m, ch) == m
  {
  }

  lemma {:induction false} RunStopped(m: Machine, s: seq<byte>)
    requires !Alive(m)
    ensures Run(m, s) == m
    decreases |s|
  {
    if s != [] {
      RunStopped(m, s[1..]);
    }
  }

  lemma {:induction false} DispatchSettings(m: Machine, ch: byte)
    requires m.st.errno == OK
    ensures SameSettings(m.st, Dispatch(m, ch).st)
    decreases Rank(m.st.state)
  {
    hide Act, MarksFit, StartLineLaw;
    var e := Act(m.st, ch);
    if e.next == Again {
      DispatchSettings(Perform(m, e.out, ch).(st := e.st), ch);
    }
  }

  lemma ByteStepSettings(m: Machine, ch: byte)
    ensures SameSettings(m.st, ByteStep(m, ch).st)
  {
    hide Dispatch, ParsingHeader;
    var counted := m.(st := Count(m.st));
    if counted.st.errno == OK {
      DispatchSettings(counted, ch);
    }
  }

  /** No input changes the settings. */
  lemma {:induction false} RunSettings(m: Machine, s: seq<byte>)
    ensures SameSettings(m.st, Run(m, s).st)
    decreases |s|
  {
    hide ByteStep;
    if s != [] {
      ByteStepSettings(m, s[0]);
      RunSettings(ByteStep(m, s[0]), s[1..]);
    }
  }

  // ---------- one call ----------

  /** The marks set on entry to http_parser_execute. */
  function Begin(m: Machine): Machine {
    match OpenPart(m.st.state)
    case Some(k) => m.(mark := Opened(k, []))
    case None => m.(mark := Closed)
  }

  /** The callbacks for the marks left over at the end of the buffer. */
  function Finish(m: Machine): Machine {
    if m.st.errno == OK then Flush(m) else m
  }

  /** One call of http_parser_execute. The caller gives it some octets, since an empty buffer stands for the end
      of the stream, and calls no more once the parser has failed or handed the connection over. */
  function Feed(m: Machine, data: seq<byte>): Machine
    requires data != []
  {
    if Alive(m) then Finish(Run(Begin(m), data)) else m
  }

  predicate NonemptyPieces(pieces: seq<seq<byte>>) {
    forall i :: 0 <= i < |pieces| ==> pieces[i] != []
  }

  function FeedAll(m: Machine, pieces: seq<seq<byte>>): Machine
    requires NonemptyPieces(pieces)
    decreases |pieces|
  {
    if pieces == [] then m else FeedAll(Feed(m, pieces[0]), pieces[1..])
  }

  // ---------- logs up to merging ----------

  /** Adds a callback to a log, gluing it to a preceding data callback of the same kind. */
  function Append(v: seq<Event>, e: Event): seq<Event> {
    if e.Data? && |v| > 0 && v[|v| - 1].Data? && v[|v| - 1].part == e.part then
      v[..|v| - 1] + [Data(e.part, v[|v| - 1].bytes + e.bytes)]
    else v + [e]
  }

  /** The log with adjacent data callbacks of one kind merged. */
  function Merge(log: seq<Event>): seq<Event> {
    if log == [] then [] else Append(Merge(log[..|log| - 1]), log[|log| - 1])
  }

  /** What the user will have seen, up to merging, once the open mark is flushed. */
  function View(m: Machine): seq<Event> {
    match m.mark
    case Closed => Merge(m.log)
    case Opened(k, b) => Append(Merge(m.log), Data(k, b))
  }

  lemma MergeSnoc(log: seq<Event>, e: Event)
    ensures Merge(log + [e]) == Append(Merge(log), e)
  {
    assert (log + [e])[..|log|] == log;
  }

  lemma AppendTwice(v: seq<Event>, k: Part, a: seq<byte>, b: seq<byte>)
    ensures Append(Append(v, Data(k, a)), Data(k, b)) == Append(v, Data(k, a + b))
  {
    var w := Append(v, Data(k, a));
    assert |w| > 0 && w[|w| - 1].Data? && w[|w| - 1].part == k;
    if |v| > 0 && v[|v| - 1].Data? && v[|v| - 1].part == k {
      var c := v[|v| - 1].bytes;
      assert w[..|w| - 1] == v[..|v| - 1];
      assert (c + a) + b == c + (a + b);
    } else {
      assert w[..|w| - 1] == v;
    }
  }

  lemma FlushView(m: Machine)
    ensures View(Flush(m)) == View(m)
  {
    if m.mark.Opened? {
      MergeSnoc(m.log, Data(m.mark.part, m.mark.bytes));
    }
  }

  // ---------- the marks agree with the states ----------

  /** Which marks may be set in which states: at most one, and the one the state calls for. */
  predicate MarkOk(m: Machine) {
    match m.mark
    case Closed => OpenPart(m.st.state) == None
    case Opened(k, _) => OpenPart(m.st.state) == Some(k) || (InBody(m.st.state) && k == Body)
  }

  predicate MarkReady(mark: Mark, out: Output) {
    match out
    case Nothing => true
    case Open(k) => mark.Closed? || mark.part == k
    case Close => true
    case Instant(_) => mark.Closed?
    case Last => mark.Closed? || mark.part == Body
    case Notify(e) => mark.Closed? && !e.Data?
  }

  /** The effect of a case on the view alone. */
  function ViewOut(v: seq<Event>, out: Output, ch: byte): seq<Event> {
    match out
    case Nothing => v
    case Open(k) => Append(v, Data(k, []))
    case Close => v
    case Instant(k) => Append(v, Data(k, []))
    case Last => Append(v, Data(Body, [ch]))
    case Notify(e) => Append(v, e)
  }

  lemma PerformView(m: Machine, out: Output, ch: byte)
    requires MarkReady(m.mark, out)
    ensures View(Perform(m, out, ch)) == ViewOut(View(m), out, ch)
  {
    match out
    case Nothing =>
    case Open(k) =>
      if m.mark.Opened? {
        AppendTwice(Merge(m.log), k, m.mark.bytes, []);
        assert m.mark.bytes + [] == m.mark.bytes;
      }
    case Close => FlushView(m);
    case Instant(k) => FlushView(m.(mark := Opened(k, [])));
    case Last =>
      var b := if m.mark.Closed? then [] else m.mark.bytes;
      MergeSnoc(m.log, Data(Body, b + [ch]));
      if m.mark.Opened? {
        AppendTwice(Merge(m.log), Body, b, [ch]);
      } else {
        assert b + [ch] == [ch];
      }
    case Notify(e) => MergeSnoc(m.log, e);
  }

  lemma AdvanceView(m: Machine, ch: byte)
    requires m.st.errno == OK
    ensures View(Advance(m, ch)) == if m.mark.Closed? then View(m) else Append(View(m), Data(m.mark.part, [ch]))
  {
    if m.mark.Opened? {
      AppendTwice(Merge(m.log), m.mark.part, m.mark.bytes, [ch]);
    }
  }

  predicate SameOpen(a: Mark, b: Mark) {
    (a.Closed? && b.Closed?) || (a.Opened? && b.Opened? && a.part == b.part)
  }

  /** Two machines the user cannot tell apart, except by where data callbacks were cut. */
  predicate Tracks(a: Machine, b: Machine) {
    && a.st == b.st && a.exited == b.exited && a.consumed == b.consumed
    && View(a) == View(b)
    && (a.st.errno == OK ==> MarkOk(a) && MarkOk(b))
  }

  lemma MarkFollows(m: Machine, e: Effect, ch: byte)
    requires m.st.errno == OK && MarkOk(m) && Lawful(m.st, e)
    ensures MarkReady(m.mark, e.out)
    ensures e.st.errno == OK ==> MarkOk(Perform(m, e.out, ch).(st := e.st))
    ensures e.st.errno == OK && InBody(e.st.state) ==>
      (Perform(m, e.out, ch).mark.Closed? <==> e.out != Open(Body))
  {
  }

  lemma PerformTracks(a: Machine, b: Machine, e: Effect, ch: byte)
    requires Tracks(a, b) && a.st.errno == OK && Lawful(a.st, e)
    ensures var a', b' := Perform(a, e.out, ch).(st := e.st), Perform(b, e.out, ch).(st := e.st);
      Tracks(a', b') && (e.st.errno == OK ==> SameOpen(a'.mark, b'.mark))
  {
    MarkFollows(a, e, ch);
    MarkFollows(b, e, ch);
    PerformView(a, e.out, ch);
    PerformView(b, e.out, ch);
    hide ViewOut, Append, Merge;
    var a', b' := Perform(a, e.out, ch).(st := e.st), Perform(b, e.out, ch).(st := e.st);
    assert View(a') == View(Perform(a, e.out, ch)) && View(b') == View(Perform(b, e.out, ch));
  }

  lemma {:induction false} DispatchTracks(a: Machine, b: Machine, ch: byte)
    requires Tracks(a, b) && a.st.errno == OK
    ensures var a', b' := Dispatch(a, ch), Dispatch(b, ch);
      Tracks(a', b') && (a'.st.errno == OK ==> SameOpen(a'.mark, b'.mark))
    decreases Rank(a.st.state)
  {
    hide Act, Append, Merge, OpenPart, InBody;
    var e := Act(a.st, ch);
    PerformTracks(a, b, e, ch);
    var a', b' := Perform(a, e.out, ch).(st := e.st), Perform(b, e.out, ch).(st := e.st);
    if e.next == Again {
      DispatchTracks(a', b', ch);
    } else {
      var a'', b'' := a'.(exited := e.next == Exit), b'.(exited := e.next == Exit);
      assert View(a'') == View(a') && View(b'') == View(b');
    }
  }

  lemma ByteStepTracks(a: Machine, b: Machine, ch: byte)
    requires Tracks(a, b)
    ensures Tracks(ByteStep(a, ch), ByteStep(b, ch))
  {
    hide Dispatch, Append, Merge;
    if Alive(a) {
      var a1, b1 := a.(st := Count(a.st)), b.(st := Count(b.st));
      assert View(a1) == View(a) && View(b1) == View(b);
      if a1.st.errno == OK {
        assert Tracks(a1, b1);
        DispatchTracks(a1, b1, ch);
        var a2, b2 := Dispatch(a1, ch), Dispatch(b1, ch);
        if a2.st.errno == OK {
          AdvanceView(a2, ch);
          AdvanceView(b2, ch);
        }
      }
    }
  }

  lemma {:induction false} RunTracks(a: Machine, b: Machine, s: seq<byte>)
    requires Tracks(a, b)
    ensures Tracks(Run(a, s), Run(b, s))
    decreases |s|
  {
    hide ByteStep, View, MarkOk;
    if s != [] {
      ByteStepTracks(a, b, s[0]);
      RunTracks(ByteStep(a, s[0]), ByteStep(b, s[0]), s[1..]);
    }
  }

  lemma RunMarkOk(m: Machine, s: seq<byte>)
    requires MarkOk(m)
    ensures Run(m, s).st.errno == OK ==> MarkOk(Run(m, s))
  {
    RunTracks(m, m, s);
  }

  /** A mark that is flushed and set again at the same place adds nothing to the view. */
  lemma MarkAgain(m: Machine)
    requires m.mark.Opened?
    ensures View(Flush(m).(mark := Opened(m.mark.part, []))) == View(m)
  {
    hide Append, Merge;
    MergeSnoc(m.log, Data(m.mark.part, m.mark.bytes));
    AppendTwice(Merge(m.log), m.mark.part, m.mark.bytes, []);
    assert m.mark.bytes + [] == m.mark.bytes;
  }

  /** Ending a call and starting the next one on the spot changes nothing the user can see. */
  lemma CallBoundary(m: Machine)
    requires Alive(m) && MarkOk(m)
    ensures Tracks(Begin(Finish(m)), m) && Alive(Finish(m))
  {
    hide Append, Merge;
    FlushView(m);
    if m.mark.Opened? && OpenPart(m.st.state) == Some(m.mark.part) {
      MarkAgain(m);
    }
  }

  /** Same parser, same count, same exit; and without an error the same merged log. */
  predicate SameOutcome(a: Machine, b: Machine) {
    && a.st == b.st && a.exited == b.exited && a.consumed == b.consumed
    && (a.st.errno == OK ==> Merge(a.log) == Merge(b.log))
  }

  lemma FinishTracks(a: Machine, b: Machine)
    requires Tracks(a, b)
    ensures SameOutcome(Finish(a), Finish(b))
  {
    FlushView(a);
    FlushView(b);
  }

  /** One call on `s + t` is as good as a call on `s` followed by a call on `t`. */
  lemma SplitOnce(m: Machine, s: seq<byte>, t: seq<byte>)
    requires s != [] && t != []
    ensures SameOutcome(Feed(m, s + t), Feed(Feed(m, s), t))
  {
    hide View, ByteStep, Append, Merge;
    if Alive(m) {
      var b := Begin(m);
      var m1 := Run(b, s);
      RunConcat(b, s, t);
      if Alive(m1) {
        assert MarkOk(b);
        RunMarkOk(b, s);
        CallBoundary(m1);
        RunTracks(Begin(Finish(m1)), m1, t);
        FinishTracks(Run(Begin(Finish(m1)), t), Run(m1, t));
      } else {
        RunStopped(m1, t);
      }
    }
  }

  /** Split invariance: however a stream is cut into calls, the parser ends in the same state, has
      consumed as many octets, and (without an error) has made the same callbacks up to merging. */
  lemma {:induction false} SplitInvariance(m: Machine, pieces: seq<seq<byte>>)
    requires |pieces| > 0 && NonemptyPieces(pieces)
    ensures SameOutcome(Feed(m, Flatten(pieces)), FeedAll(m, pieces))
    decreases |pieces|
  {
    hide Feed, Merge;
    var rest := pieces[1..];
    if rest == [] {
      assert Flatten(rest) == [];
      assert pieces[0] + [] == pieces[0];
    } else {
      SplitInvariance(Feed(m, pieces[0]), rest);
      SplitOnce(m, pieces[0], Flatten(rest));
    }
  }

  // ---------- calls made one after another ----------

  /** The same machine with `k` more octets already counted as consumed. */
  function Shift(m: Machine, k: nat): Machine {
    m.(consumed := m.consumed + k)
  }

  lemma {:induction false} DispatchShift(m: Machine, k: nat, ch: byte)
    requires m.st.errno == OK
    ensures Dispatch(Shift(m, k), ch) == Shift(Dispatch(m, ch), k)
    decreases Rank(m.st.state)
  {
    hide Act;
    var e := Act(m.st, ch);
    assert Perform(Shift(m, k), e.out, ch).(st := e.st) == Shift(Perform(m, e.out, ch).(st := e.st), k);
    if e.next == Again {
      DispatchShift(Perform(m, e.out, ch).(st := e.st), k, ch);
    }
  }

  lemma {:induction false} RunShift(m: Machine, k: nat, s: seq<byte>)
    ensures Run(Shift(m, k), s) == Shift(Run(m, s), k)
    decreases |s|
  {
    hide Act, Dispatch, Count;
    if s != [] {
      var counted := m.(st := Count(m.st));
      if Alive(m) && counted.st.errno == OK {
        DispatchShift(counted, k, s[0]);
      }
      assert ByteStep(Shift(m, k), s[0]) == Shift(ByteStep(m, s[0]), k);
      RunShift(ByteStep(m, s[0]), k, s[1..]);
    }
  }

  /** What a call does is independent of the octets that earlier calls consumed. */
  lemma FeedShift(m: Machine, k: nat, data: seq<byte>)
    requires data != []
    ensures Feed(Shift(m, k), data) == Shift(Feed(m, data), k)
  {
    hide Run;
    RunShift(Begin(m), k, data);
  }

  /** A parser that has stopped does not start again. */
  lemma {:induction false} FeedAllStopped(m: Machine, pieces: seq<seq<byte>>)
    requires !Alive(m) && NonemptyPieces(pieces)
    ensures FeedAll(m, pieces) == m
    decreases |pieces|
  {
    if pieces != [] {
      FeedAllStopped(m, pieces[1..]);
    }
  }

  lemma {:induction false} FeedAllSettings(m: Machine, pieces: seq<seq<byte>>)
    requires NonemptyPieces(pieces)
    ensures SameSettings(m.st, FeedAll(m, pieces).st)
    decreases |pieces|
  {
    hide Run, OpenPart;
    if pieces != [] {
      RunSettings(Begin(m), pieces[0]);
      FeedAllSettings(Feed(m, pieces[0]), pieces[1..]);
    }
  }
}
