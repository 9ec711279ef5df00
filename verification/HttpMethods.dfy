/** The request method: guessed from its first letter, corrected letter by letter, and in the end exactly
    the method that was written. */
module HttpMethods {
  import opened Bytes
  import opened HttpTypes
  import opened HttpAct
  import opened HttpMachine
  import opened HttpRuns

  /** The method that the parser believes in after `i` letters of the name of `v`. */
  function Guess(v: Method, i: nat): Method {
    if v.PUT? || v.PATCH? || v.PROPFIND? then (if i <= 1 then POST else v)
    else if v.PURGE? then (if i <= 1 then POST else if i == 2 then PUT else v)
    else if v.PROPPATCH? then (if i <= 1 then POST else if i <= 4 then PROPFIND else v)
    else if v.COPY? then (if i <= 2 then CONNECT else v)
    else if v.CHECKOUT? then (if i <= 1 then CONNECT else v)
    else if v.MOVE? || v.MERGE? || v.MSEARCH? then (if i <= 1 then MKCOL else v)
    else if v.MKACTIVITY? then (if i <= 2 then MKCOL else v)
    else if v.MKCALENDAR? then (if i <= 3 then MKCOL else v)
    else if v.SEARCH? || v.SOURCE? then (if i <= 1 then SUBSCRIBE else v)
    else if v.REBIND? then (if i <= 2 then REPORT else v)
    else if v.LINK? then (if i <= 1 then LOCK else v)
    else if v.UNSUBSCRIBE? || v.UNBIND? then (if i <= 2 then UNLOCK else v)
    else if v.UNLINK? then (if i <= 3 then UNLOCK else v)
    else v
  }

  /** Letter `i` of a method name, or the NUL behind it. */
  function Letter(v: Method, i: nat): int {
    LiteralAt(MethodName(v), i)
  }

  predicate FromP(v: Method) {
    v.PUT? || v.PATCH? || v.PROPFIND? || v.PURGE? || v.PROPPATCH?
  }

  predicate FromC(v: Method) {
    v.COPY? || v.CHECKOUT?
  }

  predicate FromM(v: Method) {
    v.MOVE? || v.MERGE? || v.MSEARCH? || v.MKACTIVITY? || v.MKCALENDAR?
  }

  predicate FromU(v: Method) {
    v.UNSUBSCRIBE? || v.UNBIND? || v.UNLINK?
  }

  predicate FromOther(v: Method) {
    v.SEARCH? || v.SOURCE? || v.REBIND? || v.LINK?
  }

  /** The next letter confirms the guess, or the correction table replaces it by the right one. */
  predicate Follows(v: Method, i: nat) {
    var g, ch := Guess(v, i), Letter(v, i);
    && 0 < ch < 256 && ('A' as int <= ch <= 'Z' as int || ch == '-' as int)
    && if Letter(g, i) == ch then Guess(v, i + 1) == g else NextMethod(g, i, ch) == (true, Guess(v, i + 1))
  }

  lemma StepP(v: Method, i: nat)
    requires FromP(v) && 0 < i < |MethodName(v)|
    ensures Follows(v, i)
  {
  }

  lemma StepC(v: Method, i: nat)
    requires FromC(v) && 0 < i < |MethodName(v)|
    ensures Follows(v, i)
  {
  }

  lemma StepM(v: Method, i: nat)
    requires FromM(v) && 0 < i < |MethodName(v)|
    ensures Follows(v, i)
  {
  }

  lemma StepU(v: Method, i: nat)
    requires FromU(v) && 0 < i < |MethodName(v)|
    ensures Follows(v, i)
  {
  }

  lemma StepOther(v: Method, i: nat)
    requires FromOther(v) && 0 < i < |MethodName(v)|
    ensures Follows(v, i)
  {
  }

  lemma StepSame(v: Method, i: nat)
    requires !FromP(v) && !FromC(v) && !FromM(v) && !FromU(v) && !FromOther(v) && 0 < i < |MethodName(v)|
    ensures Follows(v, i)
  {
    hide NextMethod;
  }

  lemma GuessStep(v: Method, i: nat)
    requires 0 < i < |MethodName(v)|
    ensures Follows(v, i)
  {
    hide MethodName, NextMethod, Guess, Letter, FromP, FromC, FromM, FromU, FromOther, Follows;
    if FromP(v) {
      StepP(v, i);
    } else if FromC(v) {
      StepC(v, i);
    } else if FromM(v) {
      StepM(v, i);
    } else if FromU(v) {
      StepU(v, i);
    } else if FromOther(v) {
      StepOther(v, i);
    } else {
      StepSame(v, i);
    }
  }

  lemma FirstIsLetter(v: Method)
    ensures |MethodName(v)| > 1 && 'A' as int <= Letter(v, 0) <= 'Z' as int
  {
  }

  lemma GuessFirst(v: Method)
    requires 0 <= Letter(v, 0) < 256
    ensures FirstMethod(Letter(v, 0)) == (true, Guess(v, 1))
  {
  }

  lemma LettersVisible(v: Method, i: nat)
    requires i < |MethodName(v)|
    ensures SP < Letter(v, i) < 128
  {
    assert MethodName(v)[i] == '-' || 'A' <= MethodName(v)[i] <= 'Z';
  }

  lemma GuessLast(v: Method)
    ensures Guess(v, |MethodName(v)|) == v && Letter(v, |MethodName(v)|) == NUL
  {
  }

  // ---------- soundness of the correction table ----------

  /** `t` are the first |t| letters of the name of `v`. */
  predicate Begins(v: Method, t: seq<byte>) {
    |t| <= |MethodName(v)| && forall i :: 0 <= i < |t| ==> t[i] == Letter(v, i)
  }

  lemma CorrectionP(g: Method, i: nat, ch: byte)
    requires g.POST? || g.PUT? || g.PROPFIND?
    ensures Corrects(g, i, ch)
  {
  }

  lemma CorrectionCM(g: Method, i: nat, ch: byte)
    requires g.CONNECT? || g.MKCOL?
    ensures Corrects(g, i, ch)
  {
  }

  lemma CorrectionSU(g: Method, i: nat, ch: byte)
    requires g.SUBSCRIBE? || g.UNLOCK?
    ensures Corrects(g, i, ch)
  {
  }

  lemma CorrectionRest(g: Method, i: nat, ch: byte)
    requires !g.POST? && !g.PUT? && !g.PROPFIND? && !g.CONNECT? && !g.MKCOL? && !g.SUBSCRIBE? && !g.UNLOCK?
    ensures Corrects(g, i, ch)
  {
  }

  /** A correction keeps the letters read so far and accounts for the new one. */
  predicate Corrects(g: Method, i: nat, ch: byte) {
    var (known, v) := NextMethod(g, i, ch);
    known ==> i < |MethodName(v)| && Letter(v, i) == ch
              && forall j :: 0 <= j < i ==> Letter(v, j) == Letter(g, j)
  }

  lemma CorrectionSound(g: Method, i: nat, ch: byte, t: seq<byte>)
    requires |t| == i && Begins(g, t)
    ensures var (known, v) := NextMethod(g, i, ch); known ==> Begins(v, t + [ch])
  {
    hide NextMethod, MethodName, Letter;
    if g.POST? || g.PUT? || g.PROPFIND? {
      CorrectionP(g, i, ch);
    } else if g.CONNECT? || g.MKCOL? {
      CorrectionCM(g, i, ch);
    } else if g.SUBSCRIBE? || g.UNLOCK? {
      CorrectionSU(g, i, ch);
    } else {
      CorrectionRest(g, i, ch);
    }
  }

  lemma ConfirmationSound(g: Method, ch: byte, t: seq<byte>)
    requires Begins(g, t) && ch == Letter(g, |t|) && ch != NUL
    ensures Begins(g, t + [ch])
  {
    hide MethodName;
  }

  lemma FirstSound(ch: byte)
    ensures var (known, v) := FirstMethod(ch); known ==> Begins(v, [ch])
  {
  }

  // ---------- the machine ----------

  /** The parser after `i` letters, believing in `v`. */
  function Reading(st: Parser, v: Method, i: nat): Parser {
    FreshMessage(st).(verb := v, index := i, state := ReqMethod, nread := st.nread + i)
  }

  predicate AtRequest(m: Machine, n: nat) {
    Alive(m) && m.st.state == StartReq && m.mark == Closed && m.st.nread + n <= MAX_HEADER_SIZE
  }

  lemma ActFirst(st: Parser, ch: byte)
    requires st.errno == OK && st.state == StartReq && ch != CR && ch != LF
    ensures var (known, v) := FirstMethod(ch);
      if known && IsAlpha(ch) then
        Act(st, ch) == Effect(FreshMessage(st).(verb := v, index := 1, state := ReqMethod), Notify(MessageBegin), Consume)
      else Act(st, ch).st.errno != OK && Act(st, ch).next == Consume
  {
    hide Lawful, FirstMethod, IsAlpha;
  }

  lemma ActLetter(st: Parser, ch: byte)
    requires st.errno == OK && st.state == ReqMethod
    ensures Act(st, ch) == ActReqMethod(st, ch) && Act(st, ch).next == Consume && Act(st, ch).out == Nothing
  {
    hide Lawful, NextMethod, MethodName, LiteralAt;
  }

  lemma ReadingFirst(st: Parser, v: Method)
    requires ParsingHeader(st.state) && st.nread < MAX_HEADER_SIZE
    ensures FreshMessage(Count(st)).(verb := v, index := 1, state := ReqMethod) == Reading(st, v, 1)
    ensures Reading(st, v, 1).errno == st.errno
  {
  }

  lemma StepFirst(m: Machine, ch: byte, v: Method)
    requires AtRequest(m, 1) && ch != CR && ch != LF && FirstMethod(ch) == (true, v) && IsAlpha(ch)
    ensures ByteStep(m, ch) == m.(st := Reading(m.st, v, 1), log := m.log + [MessageBegin], consumed := m.consumed + 1)
  {
    hide Act, ByteStep, FirstMethod, IsAlpha, FreshMessage, Reading, Lawful;
    CountHeader(m.st);
    ReadingFirst(m.st, v);
    ActFirst(Count(m.st), ch);
    StepConsume(m, ch, Act(Count(m.st), ch));
  }

  lemma StepNoMethod(m: Machine, ch: byte)
    requires AtRequest(m, 1) && ch != CR && ch != LF && !(FirstMethod(ch).0 && IsAlpha(ch))
    ensures ByteStep(m, ch).st.errno != OK
  {
    hide Act, ByteStep, FirstMethod, IsAlpha, Lawful;
    CountHeader(m.st);
    ActFirst(Count(m.st), ch);
    StepConsume(m, ch, Act(Count(m.st), ch));
  }

  /** What one more octet makes of the guess: a new guess, the end of the name, or an error. */
  lemma StepLetter(m: Machine, ch: byte)
    requires Alive(m) && m.st.state == ReqMethod && m.mark == Closed && m.st.nread < MAX_HEADER_SIZE
    ensures var st := ActReqMethod(Count(m.st), ch).st;
      ByteStep(m, ch) == m.(st := st, consumed := if st.errno == OK then m.consumed + 1 else m.consumed)
  {
    hide Act, ByteStep, ActReqMethod;
    CountHeader(m.st);
    ActLetter(Count(m.st), ch);
    StepConsume(m, ch, Act(Count(m.st), ch));
  }

  /** One octet of a method name, whatever it is. */
  lemma LetterOutcome(st: Parser, ch: byte, t: seq<byte>)
    requires st.errno == OK && st.state == ReqMethod && Begins(st.verb, t) && st.index == |t|
    ensures var r := ActReqMethod(st, ch).st;
      || r.errno != OK
      || (ch == SP && |t| == |MethodName(st.verb)| && r == st.(index := |t| + 1, state := ReqSpacesBeforeUrl))
      || (ch != SP && r == st.(verb := r.verb, index := |t| + 1) && Begins(r.verb, t + [ch]))
  {
    hide Lawful, NextMethod, MethodName, Begins;
    LengthOf(st.verb, t);
    if |t| < |MethodName(st.verb)| {
      LettersVisible(st.verb, |t|);
    }
    CorrectionSound(st.verb, |t|, ch, t);
    if ch == Letter(st.verb, |t|) && ch != NUL {
      ConfirmationSound(st.verb, ch, t);
    }
  }

  lemma LengthOf(v: Method, t: seq<byte>)
    requires Begins(v, t)
    ensures |t| <= |MethodName(v)| && (|t| == |MethodName(v)| ==> Letter(v, |t|) == NUL)
  {
    hide MethodName;
  }

  /** The next letter of `v` improves the guess. */
  lemma LetterGuess(st: Parser, v: Method, i: nat)
    requires st.errno == OK && st.state == ReqMethod && st.verb == Guess(v, i) && st.index == i
    requires 0 < i < |MethodName(v)| && 0 <= Letter(v, i) < 256
    ensures ActReqMethod(st, Letter(v, i)).st == st.(verb := Guess(v, i + 1), index := i + 1)
  {
    hide Lawful, NextMethod, MethodName, Guess;
    GuessStep(v, i);
    LettersVisible(v, i);
  }

  /** The octets of a method name. */
  function Spelling(v: Method): (s: seq<byte>)
    ensures |s| == |MethodName(v)| && forall i :: 0 <= i < |s| ==> s[i] == Letter(v, i)
  {
    NamesAreAscii(v);
    Ascii(MethodName(v))
  }

  lemma NamesAreAscii(v: Method)
    ensures IsAsciiString(MethodName(v))
  {
    hide MethodName;
    forall i | 0 <= i < |MethodName(v)| ensures MethodName(v)[i] as int < 128 {
      LettersVisible(v, i);
    }
  }

  /** The machine that has read the first `i` letters of a method name. */
  function Guessing(m: Machine, v: Method, i: nat): Machine
    requires 0 < i <= |MethodName(v)|
  {
    m.(st := Reading(m.st, Guess(v, i), i), log := m.log + [MessageBegin], consumed := m.consumed + i)
  }

  lemma StepGuess(m: Machine, v: Method, i: nat)
    requires 1 < i <= |MethodName(v)| && AtRequest(m, i)
    ensures ByteStep(Guessing(m, v, i - 1), Spelling(v)[i - 1]) == Guessing(m, v, i)
  {
    hide Act, ByteStep, ActReqMethod, MethodName, Guess, FirstMethod, Guessing, Count;
    var r := Guessing(m, v, i - 1);
    GuessingCounted(m, v, i);
    StepLetter(r, Spelling(v)[i - 1]);
    LetterGuess(Count(r.st), v, i - 1);
  }

  lemma GuessingCounted(m: Machine, v: Method, i: nat)
    requires 1 < i <= |MethodName(v)| && AtRequest(m, i)
    ensures var r := Guessing(m, v, i - 1);
      var st := Count(r.st);
      && Alive(r) && r.st.state == ReqMethod && r.mark == Closed && r.st.nread < MAX_HEADER_SIZE
      && st.errno == OK && st.state == ReqMethod && st.verb == Guess(v, i - 1) && st.index == i - 1
      && r.(st := st.(verb := Guess(v, i), index := i), consumed := r.consumed + 1) == Guessing(m, v, i)
  {
    hide MethodName, Guess, Reading, Count;
    ReadingCounted(m.st, Guess(v, i - 1), Guess(v, i), i);
  }

  lemma ReadingCounted(st: Parser, g: Method, h: Method, i: nat)
    requires i > 0 && st.errno == OK && st.nread + i <= MAX_HEADER_SIZE
    ensures var r := Reading(st, g, i - 1);
      && r.errno == OK && r.state == ReqMethod && r.nread < MAX_HEADER_SIZE
      && Count(r).errno == OK && Count(r).state == ReqMethod && Count(r).verb == g && Count(r).index == i - 1
      && Count(r).(verb := h, index := i) == Reading(st, h, i)
  {
    hide Count;
    CountHeader(Reading(st, g, i - 1));
  }

  /** Every method name is recognised, however often the guess changes on the way. */
  lemma {:induction false} RunGuess(m: Machine, v: Method, i: nat)
    requires 0 < i <= |MethodName(v)| && AtRequest(m, i)
    ensures Run(m, Spelling(v)[..i]) == m.(
      st := Reading(m.st, Guess(v, i), i), log := m.log + [MessageBegin], consumed := m.consumed + i)
    decreases i
  {
    hide Act, ByteStep, ActReqMethod, MethodName, Guess, Run, FirstMethod, Reading;
    var s := Spelling(v);
    assert s[..i] == s[..i - 1] + [s[i - 1]];
    RunSnoc(m, s[..i - 1], s[i - 1]);
    if i == 1 {
      FirstIsLetter(v);
      GuessFirst(v);
      RunEmpty(m);
      StepFirst(m, s[0], Guess(v, 1));
    } else {
      RunGuess(m, v, i - 1);
      StepGuess(m, v, i);
    }
  }

  /** The parser is reading a method name whose letters so far are `t`, or has failed. */
  predicate ReadingName(r: Machine, t: seq<byte>) {
    r.st.errno != OK
    || (Alive(r) && r.mark == Closed && r.st.state == ReqMethod && r.st.index == |t| && Begins(r.st.verb, t))
  }

  lemma {:induction false} RunName(m: Machine, t: seq<byte>)
    requires AtRequest(m, |t|) && t != [] && SP !in t && t[0] != CR && t[0] != LF
    ensures ReadingName(Run(m, t), t) && (Run(m, t).st.errno == OK ==> Run(m, t).st.nread == m.st.nread + |t|)
    decreases |t|
  {
    hide Act, ByteStep, ActReqMethod, MethodName, Begins, Run, FirstMethod;
    var k := |t| - 1;
    var init, ch := t[..k], t[k];
    assert t == init + [ch];
    RunSnoc(m, init, ch);
    if init == [] {
      RunEmpty(m);
      FirstSound(ch);
      if FirstMethod(ch).0 && IsAlpha(ch) {
        StepFirst(m, ch, FirstMethod(ch).1);
      } else {
        StepNoMethod(m, ch);
      }
      assert t == [ch];
    } else {
      RunName(m, init);
      var r := Run(m, init);
      if r.st.errno != OK {
        assert ByteStep(r, ch) == r by { StepStopped(r, ch); }
      } else {
        StepLetter(r, ch);
        CountHeader(r.st);
        LetterOutcome(Count(r.st), ch, init);
      }
    }
  }

  /** The method is recognised exactly: a token and a space are accepted if and only if the token is the
      name of one of the methods, and then that method is the one the parser reports. */
  lemma MethodExact(m: Machine, t: seq<byte>)
    requires AtRequest(m, |t| + 1) && t != [] && SP !in t && t[0] != CR && t[0] != LF
    ensures var r := Run(m, t + [SP]);
      && (r.st.errno == OK <==> exists v: Method :: t == Spelling(v))
      && (r.st.errno == OK ==> r.st.state == ReqSpacesBeforeUrl && t == Spelling(r.st.verb))
  {
    hide Act, ByteStep, ActReqMethod, MethodName, Begins, Run, Spelling, Guess;
    RunSnoc(m, t, SP);
    RunName(m, t);
    var r := Run(m, t);
    if r.st.errno != OK {
      StepStopped(r, SP);
    } else {
      StepLetter(r, SP);
      CountHeader(r.st);
      LetterOutcome(Count(r.st), SP, t);
      if ByteStep(r, SP).st.errno == OK {
        SpelledOut(r.st.verb, t);
      }
    }
    if v: Method :| t == Spelling(v) {
      assert t == Spelling(v)[..|t|];
      RunGuess(m, v, |t|);
      GuessLast(v);
      NameEnds(Count(r.st), v);
    }
  }

  lemma SpelledOut(v: Method, t: seq<byte>)
    requires Begins(v, t) && |t| == |MethodName(v)|
    ensures t == Spelling(v)
  {
    hide MethodName;
  }

  lemma NameEnds(st: Parser, v: Method)
    requires st.errno == OK && st.state == ReqMethod && st.verb == v && st.index == |MethodName(v)|
    ensures ActReqMethod(st, SP).st.errno == OK
  {
    hide Lawful, NextMethod, MethodName;
  }
}
