/** Transfer codings: which header values make, in the parser's eyes, the message chunked. */
module HttpTransfer {
  import opened Bytes
  import opened HttpTypes
  import opened HttpAct
  import opened HttpRuns
  import opened HttpLists

  const CHUNKED := "chunked"

  /** The last element of a comma-separated list, without the white space around it, is "chunked". */
  predicate EndsWithChunked(value: seq<byte>) {
    LastElementIs(value, CHUNKED)
  }

  function CodingSteps(m: Matcher, s: seq<byte>): Matcher
    decreases |s|
  {
    if s == [] then m else CodingSteps(CodingOctet(m, s[0], Lower(s[0])), s[1..])
  }

  function FirstCoding(c: byte): Matcher {
    Matcher(FirstValueState(HeaderState.TransferEncoding, Lower(c)), 0)
  }

  /** The matcher ends a value of Transfer-Encoding at "chunked". */
  predicate ChunkedSeen(v: seq<byte>) {
    v != [] && CodingSteps(FirstCoding(v[0]), v[1..]).h.TeChunked?
  }

  lemma {:induction false} CodingStepsConcat(m: Matcher, a: seq<byte>, b: seq<byte>)
    ensures CodingSteps(m, a + b) == CodingSteps(CodingSteps(m, a), b)
    decreases |a|
  {
    hide CodingOctet, Lower;
    if a == [] {
      assert a + b == b;
    } else {
      assert (a + b)[0] == a[0] && (a + b)[1..] == a[1..] + b;
      CodingStepsConcat(CodingOctet(m, a[0], Lower(a[0])), a[1..], b);
    }
  }

  lemma CodingStepsOne(m: Matcher, c: byte)
    ensures CodingSteps(m, [c]) == CodingOctet(m, c, Lower(c))
  {
    hide CodingOctet, Lower;
    assert [c][1..] == [];
  }

  // ---------- the value loop ----------

  predicate CodingScanned(h: HeaderState) {
    IsCoding(h) || h.General?
  }

  lemma CodingFoldStep(v: ValueScan, lenient: bool, ch: byte)
    requires v.errno == OK && CodingScanned(v.m.h)
    ensures var w := ValueStep(v, lenient, ch);
      w.errno == OK ==> CodingScanned(w.m.h) && w.m == CodingOctet(v.m, ch, Lower(ch))
  {
    hide Lower, Token, IsHeaderChar, MatchLiteral, OptionOctet, LengthOctet, ConnectionFlag;
    CodingStays(v.m, Lower(ch));
  }

  lemma CodingStays(m: Matcher, c: byte)
    ensures var r := MatchLiteral(m, "chunked", c, TeToken, TeChunked).h; r == m.h || r == TeToken || r == TeChunked
  {
  }

  /** The loop over a Transfer-Encoding value does what the coding matcher alone does. */
  lemma {:induction false} CodingFold(v: ValueScan, lenient: bool, s: seq<byte>)
    requires v.errno == OK && CodingScanned(v.m.h)
    ensures var w := ValueSteps(v, lenient, s); w.errno == OK ==> w.m == CodingSteps(v.m, s)
    decreases |s|
  {
    hide ValueStep, CodingOctet, CodingScanned, Lower;
    if s != [] {
      CodingFoldStep(v, lenient, s[0]);
      if ValueStep(v, lenient, s[0]).errno == OK {
        CodingFold(ValueStep(v, lenient, s[0]), lenient, s[1..]);
      }
    }
  }

  // ---------- which values are chunked ----------

  const START := Matcher(TeTokenStart, 0)

  /** Whether a text that begins at an element, or, if `inside`, within one that is not looked at, ends with a
      "chunked" that the matcher finds. An element without a token, or whose first octet can begin none, ends the
      search; behind "chunked" and behind the beginning of it the comma is missed, and the next element not looked at. */
  predicate FoundChunked(s: seq<byte>, inside: bool)
    decreases |s|
  {
    var i := Comma(s);
    var e := DropSpaces(s[..i]);
    if inside then i < |s| && FoundChunked(s[i + 1..], false)
    else if i == |s| then BeginsPadded(e, CHUNKED)
    else e != [] && Opens(e[0]) && FoundChunked(s[i + 1..], Stem(e, CHUNKED) || BeginsPadded(e, CHUNKED))
  }

  /** Where the search begins: the first octet of a value counts as a token octet whatever it is. */
  predicate ChunkedFound(v: seq<byte>) {
    v != [] && if Opens(v[0]) then FoundChunked(v, false) else FoundChunked(v[1..], true)
  }

  /** What the matcher knows inside an element that begins with `q`. */
  predicate PaddedMatched(q: seq<byte>, m: Matcher) {
    && (m.h.TeMatchingChunked? <==> Stem(q, CHUNKED)) && (m.h.TeChunked? <==> BeginsPadded(q, CHUNKED))
    && (m.h.TeMatchingChunked? ==> m.index == |q| - 1)
    && IsCoding(m.h) && !m.h.TeTokenStart?
  }

  predicate ElementMatched(p: seq<byte>, m: Matcher) {
    var q := DropSpaces(p);
    if q == [] then m == START else if Opens(q[0]) then PaddedMatched(q, m) else m.h.General?
  }

  lemma ChunkedLiteral()
    ensures IsLiteral(CHUNKED) && Begins([], CHUNKED) && LiteralAt(CHUNKED, 0) == 'c' as int
  {
  }

  lemma OpeningLetters(c: byte)
    ensures Lower(c) == 'c' as int ==> Opens(c)
    ensures c != SP && c != NUL ==> Lower(c) != SP && Lower(c) != HT
    ensures Opens(c) ==> Lower(c) != SP
  {
    NoTokens();
  }

  lemma OpensFirst(c: byte)
    requires c != SP && c != NUL && c != ',' as int
    ensures var m := CodingOctet(START, c, Lower(c)); if Opens(c) then PaddedMatched([c], m) else m.h.General?
    ensures Opens(c) ==> CodingOctet(START, c, Lower(c)) == FirstCoding(c)
    ensures !Opens(c) ==> FirstCoding(c).h.TeToken?
  {
    OpeningLetters(c);
    hide Lower, Token, Begins;
    ChunkedLiteral();
    BeginsSnoc([], c, CHUNKED);
    assert [] + [c] == [c];
  }

  lemma OpensMore(q: seq<byte>, m: Matcher, c: byte)
    requires q != [] && PaddedMatched(q, m) && c != ',' as int
    ensures PaddedMatched(q + [c], CodingOctet(m, c, Lower(c)))
  {
    hide Lower, Token, Begins, BeginsPadded;
    ChunkedLiteral();
    BeginsSnoc(q, c, CHUNKED);
    PaddedSnoc(q, c, CHUNKED);
  }

  lemma ElementMore(p: seq<byte>, m: Matcher, c: byte)
    requires ElementMatched(p, m) && c != ',' as int && c != NUL
    ensures ElementMatched(p + [c], CodingOctet(m, c, Lower(c)))
  {
    hide Lower, Opens, PaddedMatched, DropSpaces;
    DropSnoc(p, c);
    var q := DropSpaces(p);
    if q == [] {
      if c == SP {
        NotLetter();
        NoTokens();
      } else {
        OpensFirst(c);
      }
    } else if Opens(q[0]) {
      OpensMore(q, m, c);
    }
  }

  /** One element, from its beginning: what the matcher ends with. */
  lemma {:induction false} ElementRead(e: seq<byte>)
    requires ',' as int !in e && NUL !in e
    ensures ElementMatched(e, CodingSteps(START, e))
    decreases |e|
  {
    hide CodingOctet, Lower, ElementMatched;
    if e == [] {
      NothingRead();
    } else {
      var k := |e| - 1;
      var p := e[..k];
      assert e == p + [e[k]];
      ElementRead(p);
      CodingStepsConcat(START, p, [e[k]]);
      CodingStepsOne(CodingSteps(START, p), e[k]);
      ElementMore(p, CodingSteps(START, p), e[k]);
    }
  }

  lemma NothingRead()
    ensures ElementMatched([], START)
  {
  }

  lemma ElementEnds(e: seq<byte>, m: Matcher)
    requires ElementMatched(e, m)
    ensures m.h.TeChunked? <==> BeginsPadded(DropSpaces(e), CHUNKED)
  {
    hide DropSpaces, BeginsPadded, Opens, Stem, IsLiteral;
    ChunkedLiteral();
    if BeginsPadded(DropSpaces(e), CHUNKED) {
      PaddedOpens(DropSpaces(e), CHUNKED);
    }
  }

  /** The comma behind an element. */
  lemma CommaRead(e: seq<byte>, m: Matcher)
    requires ElementMatched(e, m)
    ensures var q, r := DropSpaces(e), CodingOctet(m, ',' as int, Lower(',' as int));
      if q == [] || !Opens(q[0]) then r.h.General?
      else if Stem(q, CHUNKED) || BeginsPadded(q, CHUNKED) then r.h.TeToken? else r == START
  {
    hide Lower, Token, Begins, DropSpaces, BeginsPadded;
    NotLetter();
    NoTokens();
    NoCommaInside(m);
  }

  lemma NoCommaInside(m: Matcher)
    ensures MatchLiteral(m, "chunked", ',' as int, TeToken, TeChunked).h == TeToken
  {
  }

  lemma {:induction false} GeneralStays(m: Matcher, s: seq<byte>)
    requires m.h.General?
    ensures CodingSteps(m, s) == m
    decreases |s|
  {
    hide Lower;
    if s != [] {
      GeneralStays(m, s[1..]);
    }
  }

  lemma {:induction false} TokenStays(m: Matcher, s: seq<byte>)
    requires m.h.TeToken? && ',' as int !in s
    ensures CodingSteps(m, s) == m
    decreases |s|
  {
    hide Lower;
    if s != [] {
      TokenStays(m, s[1..]);
    }
  }

  /** The steps up to the first comma, the comma, and the rest. */
  lemma CutAtComma(m: Matcher, s: seq<byte>)
    ensures var i := Comma(s);
      if i == |s| then s[..i] == s else
        var r := CodingSteps(m, s[..i]);
        CodingSteps(m, s) == CodingSteps(CodingOctet(r, ',' as int, Lower(',' as int)), s[i + 1..])
  {
    hide CodingOctet, Comma, Lower;
    var i := Comma(s);
    CommaCuts(s);
    if i < |s| {
      CodingStepsConcat(m, s[..i] + [',' as int], s[i + 1..]);
      CodingStepsConcat(m, s[..i], [',' as int]);
      CodingStepsOne(CodingSteps(m, s[..i]), ',' as int);
    }
  }

  lemma {:induction false} FromStart(s: seq<byte>)
    requires NUL !in s
    ensures CodingSteps(START, s).h.TeChunked? <==> FoundChunked(s, false)
    decreases |s|, 1
  {
    hide CodingSteps, CodingOctet, Comma, DropSpaces, ElementMatched, BeginsPadded, Opens, Stem, Lower;
    var i := Comma(s);
    ElementRead(s[..i]);
    CutAtComma(START, s);
    var m, q := CodingSteps(START, s[..i]), DropSpaces(s[..i]);
    if i == |s| {
      ElementEnds(s[..i], m);
    } else {
      CommaRead(s[..i], m);
      var r := CodingOctet(m, ',' as int, Lower(',' as int));
      if q == [] || !Opens(q[0]) {
        GeneralStays(r, s[i + 1..]);
      } else if Stem(q, CHUNKED) || BeginsPadded(q, CHUNKED) {
        FromToken(s[i + 1..], r);
      } else {
        FromStart(s[i + 1..]);
      }
    }
  }

  lemma {:induction false} FromToken(s: seq<byte>, m: Matcher)
    requires NUL !in s && m.h.TeToken?
    ensures CodingSteps(m, s).h.TeChunked? <==> FoundChunked(s, true)
    decreases |s|, 0
  {
    hide CodingSteps, Comma, DropSpaces, BeginsPadded, Opens, Stem, Lower;
    var i := Comma(s);
    TokenStays(m, s[..i]);
    CutAtComma(m, s);
    if i < |s| {
      FromStart(s[i + 1..]);
    }
  }

  /** Exactly the values at whose end the matcher is at "chunked". */
  lemma ChunkedExact(v: seq<byte>)
    requires v != [] && !IsBlank(v[0]) && NUL !in v
    ensures ChunkedSeen(v) <==> ChunkedFound(v)
  {
    hide FoundChunked, Opens, Lower, CodingOctet;
    if v[0] == ',' as int {
      CommaFirst();
      FromToken(v[1..], FirstCoding(v[0]));
    } else {
      OpensFirst(v[0]);
      if Opens(v[0]) {
        FromStart(v);
      } else {
        FromToken(v[1..], FirstCoding(v[0]));
      }
    }
  }

  lemma CommaFirst()
    ensures !Opens(',' as int) && FirstCoding(',' as int).h.TeToken?
  {
    NotLetter();
    NoTokens();
  }

  // ---------- what is found is there ----------

  lemma {:induction false} FoundLast(s: seq<byte>, inside: bool)
    requires FoundChunked(s, inside)
    ensures EndsWithChunked(s)
    decreases |s|
  {
    hide Comma, DropSpaces, BeginsPadded, Opens, Stem, LastElementIs, IsLiteral;
    var i := Comma(s);
    CommaCuts(s);
    if i == |s| {
      ChunkedLiteral();
      PaddedElement(s, CHUNKED);
    } else {
      FoundLast(s[i + 1..], !inside && (Stem(DropSpaces(s[..i]), CHUNKED) || BeginsPadded(DropSpaces(s[..i]), CHUNKED)));
      LastBehindIs(s[..i], s[i + 1..], CHUNKED);
    }
  }

  lemma LastInside(c: byte, s: seq<byte>)
    requires FoundChunked(s, true)
    ensures EndsWithChunked([c] + s)
  {
    hide Comma, DropSpaces, BeginsPadded, Opens, Stem, LastElementIs;
    var i := Comma(s);
    CommaCuts(s);
    FoundLast(s[i + 1..], false);
    LastBehindIs([c] + s[..i], s[i + 1..], CHUNKED);
    assert [c] + s == [c] + s[..i] + [',' as int] + s[i + 1..];
  }

  /** For every value: the matcher finds "chunked" at its end if and only if the search does, and so only if the last
      coding of the list is "chunked"; hence the value is understood as the list it is if and only if a last
      "chunked" is found. */
  lemma ChunkedCondition(v: seq<byte>)
    requires v != [] && !IsBlank(v[0]) && NUL !in v
    ensures ChunkedSeen(v) <==> ChunkedFound(v)
    ensures ChunkedSeen(v) ==> EndsWithChunked(v)
    ensures (ChunkedSeen(v) <==> EndsWithChunked(v)) <==> (EndsWithChunked(v) ==> ChunkedFound(v))
  {
    hide FoundChunked, Opens, ChunkedSeen, EndsWithChunked;
    ChunkedExact(v);
    FoundEnds(v);
  }

  lemma FoundEnds(v: seq<byte>)
    ensures ChunkedFound(v) ==> EndsWithChunked(v)
  {
    hide FoundChunked, Opens, EndsWithChunked;
    if ChunkedFound(v) {
      if Opens(v[0]) {
        FoundLast(v, false);
      } else {
        LastInside(v[0], v[1..]);
        assert [v[0]] + v[1..] == v;
      }
    }
  }

  // ---------- well-formed lists ----------

  /** A token that does not begin with an underscore. */
  predicate IsTokenText(e: seq<byte>) {
    e != [] && AllTokens(e) && Opens(e[0])
  }

  /** A coding in front of others whose comma the matcher sees: not "chunked", nor a beginning of it. */
  predicate IsCodingText(e: seq<byte>) {
    IsTokenText(e) && !Stem(e, CHUNKED) && !Is(e, CHUNKED)
  }

  lemma TokenTextFacts(e: seq<byte>)
    requires IsTokenText(e)
    ensures e != [] && DropSpaces(e) == e && ',' as int !in e && NUL !in e && SP !in e && !IsBlank(e[0])
  {
    hide Lower;
    forall c | c in e ensures c != ',' as int && c != SP && c != NUL && c != HT {
      assert Token(c) != 0;
    }
    assert e[0] in e;
  }

  lemma FoundSpace(s: seq<byte>)
    ensures FoundChunked([SP] + s, false) <==> FoundChunked(s, false)
  {
    hide BeginsPadded, Opens, Stem, Comma, DropSpaces;
    CommaSpace(s);
  }

  lemma FoundBehind(e: seq<byte>, rest: seq<byte>)
    requires IsCodingText(e)
    ensures FoundChunked(e + [',' as int] + rest, false) <==> FoundChunked(rest, false)
  {
    hide BeginsPadded, Opens, Stem, Is, AllTokens, DropSpaces, Comma;
    TokenTextFacts(e);
    UnpaddedIs(e, CHUNKED);
    CommaAt(e, rest);
    var s := e + [',' as int] + rest;
    assert s[..|e|] == e && s[|e| + 1..] == rest;
  }

  /** A list of codings as a sender writes it. */
  predicate AreCodings(es: seq<seq<byte>>) {
    es != [] && IsTokenText(es[|es| - 1]) && forall i :: 0 <= i < |es| - 1 ==> IsCodingText(es[i])
  }

  lemma {:induction false} ListFound(es: seq<seq<byte>>)
    requires AreCodings(es)
    ensures FoundChunked(ListText(es), false) <==> Is(es[|es| - 1], CHUNKED)
    ensures NUL !in ListText(es) && ListText(es) != [] && ListText(es)[0] == es[0][0] && IsTokenText(es[0])
    decreases |es|
  {
    hide BeginsPadded, Opens, Stem, Is, IsTokenText, DropSpaces, Comma;
    var e, s := es[0], ListText(es);
    TokenTextFacts(e);
    if |es| == 1 {
      UnpaddedIs(e, CHUNKED);
      CommaAt(e, []);
      assert s[..|e|] == e;
    } else {
      var rest := ListText(es[1..]);
      assert AreCodings(es[1..]);
      ListFound(es[1..]);
      FoundSpace(rest);
      FoundBehind(e, [SP] + rest);
      assert s == e + [',' as int] + ([SP] + rest);
    }
  }

  /** For a list of well-formed codings, none of them but the last "chunked" or a beginning of it: the matcher ends at
      "chunked" exactly if the last one is. */
  lemma ChunkedListExact(es: seq<seq<byte>>)
    requires AreCodings(es)
    ensures ChunkedSeen(ListText(es)) <==> Is(es[|es| - 1], CHUNKED)
  {
    hide ChunkedSeen, FoundChunked, IsTokenText, Is, ListText, IsCodingText;
    var v := ListText(es);
    ListFound(es);
    FirstOpens(es[0]);
    ChunkedExact(v);
  }

  lemma FirstOpens(e: seq<byte>)
    requires IsTokenText(e)
    ensures e != [] && Opens(e[0]) && !IsBlank(e[0])
  {
    TokenTextFacts(e);
  }

  /** Behind the beginning of "chunked" the matcher misses the comma: the last coding of this list is "chunked", and
      is not found. */
  lemma ChunkedMissed()
    ensures var v := Ascii("c, chunked"); EndsWithChunked(v) && !ChunkedFound(v) && !ChunkedSeen(v)
  {
    hide CodingSteps, Token, FoundChunked, LastElementIs, Opens;
    var v := Ascii("c, chunked");
    var q := [SP, 'c' as int, 'h' as int, 'u' as int, 'n' as int, 'k' as int, 'e' as int, 'd' as int];
    assert v == ['c' as int] + [',' as int] + q;
    SpacedChunked(q);
    ChunkedLiteral();
    PaddedElement(q, CHUNKED);
    LastBehindIs(['c' as int], q, CHUNKED);
    assert Lower('c' as int) == 'c' as int;
    assert v[1..] == [',' as int] + q;
    CodingStepsConcat(FirstCoding('c' as int), [',' as int], q);
    CodingStepsOne(FirstCoding('c' as int), ',' as int);
    TokenStays(CodingOctet(FirstCoding('c' as int), ',' as int, Lower(',' as int)), q);
    ChunkedExact(v);
  }

  lemma SpacedChunked(q: seq<byte>)
    requires q == [SP, 'c' as int, 'h' as int, 'u' as int, 'n' as int, 'k' as int, 'e' as int, 'd' as int]
    ensures BeginsPadded(DropSpaces(q), CHUNKED)
  {
    var e := q[1..];
    assert DropSpaces(q) == DropSpaces(e) == e;
    assert Lower(e[0]) == CHUNKED[0] as int && Lower(e[1]) == CHUNKED[1] as int && Lower(e[2]) == CHUNKED[2] as int
        && Lower(e[3]) == CHUNKED[3] as int && Lower(e[4]) == CHUNKED[4] as int && Lower(e[5]) == CHUNKED[5] as int
        && Lower(e[6]) == CHUNKED[6] as int;
    assert e[..7] == e;
  }
}
