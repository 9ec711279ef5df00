/** Connection options: which header values ask, in the parser's eyes, for the connection to be kept, closed or
    handed over to another protocol. */
module HttpOptions {
  import opened Bytes
  import opened HttpTypes
  import opened HttpAct
  import opened HttpRuns
  import opened HttpLists

  const CLOSE := "close"
  const KEEP_ALIVE := "keep-alive"
  const UPGRADE := "upgrade"

  /** The options that the parser knows. */
  datatype ConnOption = KeepAliveOption | CloseOption | UpgradeOption

  function Literal(opt: ConnOption): string {
    if opt.KeepAliveOption? then KEEP_ALIVE else if opt.CloseOption? then CLOSE else UPGRADE
  }

  /** The matcher has just seen the option, and perhaps spaces behind it. */
  predicate AtEnd(opt: ConnOption, h: HeaderState) {
    if opt.KeepAliveOption? then h.ConnKeepAlive? else if opt.CloseOption? then h.ConnClose? else h.ConnUpgrade?
  }

  /** F_CONNECTION_KEEP_ALIVE, F_CONNECTION_CLOSE and F_CONNECTION_UPGRADE. */
  predicate FlagOf(opt: ConnOption, f: Flags) {
    if opt.KeepAliveOption? then f.keepAlive else if opt.CloseOption? then f.close else f.connUpgrade
  }

  /** The option matcher, and whether the option has already been followed by a comma. */
  datatype OptionScan = OptionScan(m: Matcher, hit: bool)

  function OptionStep(opt: ConnOption, o: OptionScan, ch: byte): OptionScan {
    OptionScan(OptionOctet(o.m, ch, Lower(ch)), o.hit || (ch == ',' as int && AtEnd(opt, o.m.h)))
  }

  function OptionSteps(opt: ConnOption, o: OptionScan, s: seq<byte>): OptionScan
    decreases |s|
  {
    if s == [] then o else OptionSteps(opt, OptionStep(opt, o, s[0]), s[1..])
  }

  /** The option is seen: at its comma, or when the header is finished. */
  predicate Hit(opt: ConnOption, o: OptionScan) {
    o.hit || AtEnd(opt, o.m.h)
  }

  function FirstScan(c: byte): OptionScan {
    OptionScan(Matcher(FirstValueState(HeaderState.Connection, Lower(c)), 0), false)
  }

  /** The value of a Connection header raises the flag of the option. */
  predicate Raises(opt: ConnOption, v: seq<byte>) {
    v != [] && Hit(opt, OptionSteps(opt, FirstScan(v[0]), v[1..]))
  }

  lemma {:induction false} OptionStepsConcat(opt: ConnOption, o: OptionScan, a: seq<byte>, b: seq<byte>)
    ensures OptionSteps(opt, o, a + b) == OptionSteps(opt, OptionSteps(opt, o, a), b)
    decreases |a|
  {
    hide OptionStep;
    if a == [] {
      assert a + b == b;
    } else {
      assert (a + b)[0] == a[0] && (a + b)[1..] == a[1..] + b;
      OptionStepsConcat(opt, OptionStep(opt, o, a[0]), a[1..], b);
    }
  }

  lemma OptionStepsOne(opt: ConnOption, o: OptionScan, c: byte)
    ensures OptionSteps(opt, o, [c]) == OptionStep(opt, o, c)
  {
    hide OptionStep;
    assert [c][1..] == [];
  }

  // ---------- the value loop ----------

  predicate Scanning(h: HeaderState) {
    IsOption(h) || h.General?
  }

  lemma FlagAtEnd(opt: ConnOption, f: Flags, h: HeaderState)
    ensures FlagOf(opt, ConnectionFlag(f, h)) <==> FlagOf(opt, f) || AtEnd(opt, h)
  {
  }

  lemma OptionFoldStep(opt: ConnOption, v: ValueScan, lenient: bool, ch: byte)
    requires v.errno == OK && Scanning(v.m.h)
    ensures var w := ValueStep(v, lenient, ch);
      w.errno == OK ==>
        Scanning(w.m.h) && OptionScan(w.m, FlagOf(opt, w.flags)) == OptionStep(opt, OptionScan(v.m, FlagOf(opt, v.flags)), ch)
  {
    hide Lower, Token, IsHeaderChar, MatchLiteral, CodingOctet, LengthOctet, ConnectionFlag, FlagOf;
    MatchStays(v.m, Lower(ch));
    FlagAtEnd(opt, v.flags, v.m.h);
  }

  lemma MatchStays(m: Matcher, c: byte)
    ensures var r := MatchLiteral(m, "close", c, ConnToken, ConnClose).h; r == m.h || r == ConnToken || r == ConnClose
    ensures var r := MatchLiteral(m, "keep-alive", c, ConnToken, ConnKeepAlive).h;
      r == m.h || r == ConnToken || r == ConnKeepAlive
    ensures var r := MatchLiteral(m, "upgrade", c, ConnToken, ConnUpgrade).h; r == m.h || r == ConnToken || r == ConnUpgrade
  {
  }

  /** The loop over a Connection value does what the option matcher alone does, for every option. */
  lemma {:induction false} OptionFold(opt: ConnOption, v: ValueScan, lenient: bool, s: seq<byte>)
    requires v.errno == OK && Scanning(v.m.h)
    ensures var w := ValueSteps(v, lenient, s);
      w.errno == OK ==> OptionScan(w.m, FlagOf(opt, w.flags)) == OptionSteps(opt, OptionScan(v.m, FlagOf(opt, v.flags)), s)
    decreases |s|
  {
    hide ValueStep, OptionStep, Scanning, FlagOf;
    if s != [] {
      OptionFoldStep(opt, v, lenient, s[0]);
      if ValueStep(v, lenient, s[0]).errno == OK {
        OptionFold(opt, ValueStep(v, lenient, s[0]), lenient, s[1..]);
      }
    }
  }

  /** The flag stands from the start of a value on: it only ever goes up. */
  lemma {:induction false} HitStands(opt: ConnOption, o: OptionScan, s: seq<byte>)
    ensures var r := OptionSteps(opt, o, s);
      var r0 := OptionSteps(opt, o.(hit := false), s);
      r.m == r0.m && (r.hit <==> o.hit || r0.hit)
    decreases |s|
  {
    hide OptionOctet, Lower, AtEnd;
    if s != [] {
      HitStands(opt, OptionStep(opt, o, s[0]), s[1..]);
      HitStands(opt, OptionStep(opt, o.(hit := false), s[0]), s[1..]);
    }
  }

  // ---------- which values raise a flag ----------

  const START := Matcher(ConnTokenStart, 0)

  predicate Stemmed(e: seq<byte>) {
    Stem(e, CLOSE) || Stem(e, KEEP_ALIVE) || Stem(e, UPGRADE)
  }

  /** Whether the option `l` is found in a text that begins at an element, or, if `inside`, within one that is not
      looked at. An element without a token, or whose first octet can begin none, ends the search; behind the
      mere beginning of a known option the next element is not looked at. */
  predicate FoundOption(s: seq<byte>, inside: bool, l: string)
    decreases |s|
  {
    var i := Comma(s);
    var e := DropSpaces(s[..i]);
    if inside then i < |s| && FoundOption(s[i + 1..], false, l)
    else BeginsPadded(e, l) || (i < |s| && e != [] && Opens(e[0]) && FoundOption(s[i + 1..], Stemmed(e), l))
  }

  /** Where the search begins: the first octet of a value counts as a token octet whatever it is. */
  predicate OptionFound(v: seq<byte>, l: string) {
    v != [] && if Opens(v[0]) then FoundOption(v, false, l) else FoundOption(v[1..], true, l)
  }

  /** What the matcher knows inside an element that begins with `q`. */
  predicate PaddedMatched(q: seq<byte>, m: Matcher) {
    && (m.h.ConnMatchingClose? <==> Stem(q, CLOSE)) && (m.h.ConnClose? <==> BeginsPadded(q, CLOSE))
    && (m.h.ConnMatchingKeepAlive? <==> Stem(q, KEEP_ALIVE)) && (m.h.ConnKeepAlive? <==> BeginsPadded(q, KEEP_ALIVE))
    && (m.h.ConnMatchingUpgrade? <==> Stem(q, UPGRADE)) && (m.h.ConnUpgrade? <==> BeginsPadded(q, UPGRADE))
    && (IsConnOption(m.h) || m.h.ConnToken? || m.index == |q| - 1)
    && IsOption(m.h) && !m.h.ConnTokenStart?
  }

  predicate ElementMatched(p: seq<byte>, m: Matcher) {
    var q := DropSpaces(p);
    if q == [] then m == START else if Opens(q[0]) then PaddedMatched(q, m) else m.h.General?
  }

  lemma BeginsNone()
    ensures Begins([], CLOSE) && Begins([], KEEP_ALIVE) && Begins([], UPGRADE)
  {
  }

  lemma OpensFirst(c: byte)
    requires c != SP && c != NUL && c != ',' as int
    ensures var m := OptionOctet(START, c, Lower(c)); if Opens(c) then PaddedMatched([c], m) else m.h.General?
    ensures Opens(c) ==> OptionOctet(START, c, Lower(c)) == Matcher(FirstValueState(HeaderState.Connection, Lower(c)), 0)
    ensures !Opens(c) ==> FirstValueState(HeaderState.Connection, Lower(c)).ConnToken?
  {
    OpeningLetters(c);
    hide Lower, Token, Begins;
    BeginsSnoc([], c, CLOSE);
    BeginsSnoc([], c, KEEP_ALIVE);
    BeginsSnoc([], c, UPGRADE);
    BeginsNone();
    assert [] + [c] == [c];
    assert LiteralAt(CLOSE, 0) == 'c' as int && LiteralAt(KEEP_ALIVE, 0) == 'k' as int && LiteralAt(UPGRADE, 0) == 'u' as int;
  }

  lemma OpeningLetters(c: byte)
    ensures Lower(c) == 'c' as int || Lower(c) == 'k' as int || Lower(c) == 'u' as int ==> Opens(c)
    ensures c != SP && c != NUL ==> Lower(c) != SP && Lower(c) != HT
    ensures Opens(c) ==> Lower(c) != SP
  {
    NoTokens();
  }

  lemma OpensMore(q: seq<byte>, m: Matcher, c: byte)
    requires q != [] && PaddedMatched(q, m) && c != ',' as int
    ensures PaddedMatched(q + [c], OptionOctet(m, c, Lower(c)))
  {
    hide Lower, Token, Begins, BeginsPadded;
    KnownLiterals();
    BeginsSnoc(q, c, CLOSE);
    BeginsSnoc(q, c, KEEP_ALIVE);
    BeginsSnoc(q, c, UPGRADE);
    PaddedSnoc(q, c, CLOSE);
    PaddedSnoc(q, c, KEEP_ALIVE);
    PaddedSnoc(q, c, UPGRADE);
  }

  lemma KnownLiterals()
    ensures IsLiteral(CLOSE) && IsLiteral(KEEP_ALIVE) && IsLiteral(UPGRADE)
    ensures forall opt: ConnOption :: IsLiteral(Literal(opt))
  {
  }

  lemma ElementMore(p: seq<byte>, m: Matcher, c: byte)
    requires ElementMatched(p, m) && c != ',' as int && c != NUL
    ensures ElementMatched(p + [c], OptionOctet(m, c, Lower(c)))
  {
    hide Lower, Opens, PaddedMatched, DropSpaces;
    DropSnoc(p, c);
    var q := DropSpaces(p);
    if q == [] {
      if c == SP {
        NotLetter();
        NoTokens();
      } else {
        OpensFirst(c);
      }
    } else if Opens(q[0]) {
      OpensMore(q, m, c);
    }
  }

  /** One element, from its beginning: what the matcher ends with. */
  lemma {:induction false} ElementRead(opt: ConnOption, e: seq<byte>, hit: bool)
    requires ',' as int !in e && NUL !in e
    ensures var r := OptionSteps(opt, OptionScan(START, hit), e); r.hit == hit && ElementMatched(e, r.m)
    decreases |e|
  {
    hide OptionOctet, Lower, ElementMatched, AtEnd;
    if e == [] {
      NothingRead();
    } else {
      var k := |e| - 1;
      var p := e[..k];
      assert e == p + [e[k]];
      ElementRead(opt, p, hit);
      OptionStepsConcat(opt, OptionScan(START, hit), p, [e[k]]);
      OptionStepsOne(opt, OptionSteps(opt, OptionScan(START, hit), p), e[k]);
      ElementMore(p, OptionSteps(opt, OptionScan(START, hit), p).m, e[k]);
    }
  }

  lemma NothingRead()
    ensures ElementMatched([], START)
  {
  }

  lemma ElementEnds(opt: ConnOption, e: seq<byte>, m: Matcher)
    requires ElementMatched(e, m)
    ensures AtEnd(opt, m.h) <==> BeginsPadded(DropSpaces(e), Literal(opt))
  {
    hide DropSpaces, BeginsPadded, Opens, Stem, IsLiteral;
    var q := DropSpaces(e);
    KnownLiterals();
    if BeginsPadded(q, Literal(opt)) {
      PaddedOpens(q, Literal(opt));
    }
  }

  /** The comma behind an element. */
  lemma CommaRead(opt: ConnOption, e: seq<byte>, m: Matcher, hit: bool)
    requires ElementMatched(e, m)
    ensures var q, r := DropSpaces(e), OptionStep(opt, OptionScan(m, hit), ',' as int);
      && (r.hit <==> hit || BeginsPadded(q, Literal(opt)))
      && (if q == [] || !Opens(q[0]) then r.m.h.General? else if Stemmed(q) then r.m.h.ConnToken? else r.m == START)
  {
    hide Lower, Token, Begins, DropSpaces, BeginsPadded, AtEnd;
    NotLetter();
    NoTokens();
    ElementEnds(opt, e, m);
    NoCommaInside(m);
  }

  lemma NoCommaInside(m: Matcher)
    ensures MatchLiteral(m, "close", ',' as int, ConnToken, ConnClose).h == ConnToken
    ensures MatchLiteral(m, "keep-alive", ',' as int, ConnToken, ConnKeepAlive).h == ConnToken
    ensures MatchLiteral(m, "upgrade", ',' as int, ConnToken, ConnUpgrade).h == ConnToken
  {
  }

  lemma {:induction false} GeneralStays(opt: ConnOption, o: OptionScan, s: seq<byte>)
    requires o.m.h.General?
    ensures OptionSteps(opt, o, s) == o
    decreases |s|
  {
    hide Lower;
    if s != [] {
      GeneralStays(opt, o, s[1..]);
    }
  }

  lemma {:induction false} TokenStays(opt: ConnOption, o: OptionScan, s: seq<byte>)
    requires o.m.h.ConnToken? && ',' as int !in s
    ensures OptionSteps(opt, o, s) == o
    decreases |s|
  {
    hide Lower;
    if s != [] {
      TokenStays(opt, o, s[1..]);
    }
  }

  /** The steps up to the first comma, the comma, and the rest. */
  lemma CutAtComma(opt: ConnOption, o: OptionScan, s: seq<byte>)
    ensures var i := Comma(s);
      if i == |s| then s[..i] == s else
        var r := OptionSteps(opt, o, s[..i]);
        OptionSteps(opt, o, s) == OptionSteps(opt, OptionStep(opt, r, ',' as int), s[i + 1..])
  {
    hide OptionStep, Comma;
    var i := Comma(s);
    CommaCuts(s);
    if i < |s| {
      OptionStepsConcat(opt, o, s[..i] + [',' as int], s[i + 1..]);
      OptionStepsConcat(opt, o, s[..i], [',' as int]);
      OptionStepsOne(opt, OptionSteps(opt, o, s[..i]), ',' as int);
    }
  }

  lemma {:induction false} FromStart(opt: ConnOption, s: seq<byte>, hit: bool)
    requires NUL !in s
    ensures Hit(opt, OptionSteps(opt, OptionScan(START, hit), s)) <==> hit || FoundOption(s, false, Literal(opt))
    decreases |s|, 1
  {
    hide OptionSteps, OptionStep, Comma, DropSpaces, ElementMatched, BeginsPadded, Opens, Stemmed, AtEnd, Literal;
    var o, i := OptionScan(START, hit), Comma(s);
    ElementRead(opt, s[..i], hit);
    CutAtComma(opt, o, s);
    var r, q := OptionSteps(opt, o, s[..i]), DropSpaces(s[..i]);
    ElementEnds(opt, s[..i], r.m);
    if i < |s| {
      CommaRead(opt, s[..i], r.m, hit);
      var r' := OptionStep(opt, r, ',' as int);
      if q == [] || !Opens(q[0]) {
        GeneralStays(opt, r', s[i + 1..]);
        GeneralEnds(opt, r'.m.h);
      } else if Stemmed(q) {
        FromToken(opt, s[i + 1..], r');
      } else {
        FromStart(opt, s[i + 1..], r'.hit);
      }
    }
  }

  lemma GeneralEnds(opt: ConnOption, h: HeaderState)
    ensures h.General? || h.ConnToken? ==> !AtEnd(opt, h)
  {
  }

  lemma {:induction false} FromToken(opt: ConnOption, s: seq<byte>, o: OptionScan)
    requires NUL !in s && o.m.h.ConnToken?
    ensures Hit(opt, OptionSteps(opt, o, s)) <==> o.hit || FoundOption(s, true, Literal(opt))
    decreases |s|, 0
  {
    hide OptionSteps, Comma, DropSpaces, BeginsPadded, Opens, Stemmed, Lower, AtEnd, Literal;
    var i := Comma(s);
    TokenStays(opt, o, s[..i]);
    CutAtComma(opt, o, s);
    GeneralEnds(opt, o.m.h);
    if i < |s| {
      FromStart(opt, s[i + 1..], o.hit);
    }
  }

  lemma CommaFirst()
    ensures !Opens(',' as int) && FirstValueState(HeaderState.Connection, Lower(',' as int)).ConnToken?
  {
    NotLetter();
    NoTokens();
  }

  /** What is found is listed. */
  lemma {:induction false} FoundListed(s: seq<byte>, inside: bool, l: string)
    requires IsLiteral(l) && FoundOption(s, inside, l)
    ensures Lists(s, l)
    decreases |s|
  {
    hide Comma, DropSpaces, BeginsPadded, Opens, Stemmed, Lists, LastElementIs, IsLiteral;
    var i := Comma(s);
    CommaCuts(s);
    if !inside && BeginsPadded(DropSpaces(s[..i]), l) {
      PaddedElement(s[..i], l);
      ListsHere(s[..i], s, l);
    } else {
      FoundListed(s[i + 1..], !inside && Stemmed(DropSpaces(s[..i])), l);
      ListsBehind(s[..i], s[i + 1..], l);
    }
  }

  lemma ListsInside(c: byte, s: seq<byte>, l: string)
    requires IsLiteral(l) && FoundOption(s, true, l)
    ensures Lists([c] + s, l)
  {
    hide Comma, DropSpaces, BeginsPadded, Opens, Stemmed, Lists, IsLiteral;
    var i := Comma(s);
    CommaCuts(s);
    FoundListed(s[i + 1..], false, l);
    ListsBehind([c] + s[..i], s[i + 1..], l);
    assert [c] + s == [c] + s[..i] + [',' as int] + s[i + 1..];
  }

  /** Exactly the values that raise the flag of an option. */
  lemma RaisesExact(opt: ConnOption, v: seq<byte>)
    requires v != [] && !IsBlank(v[0]) && NUL !in v
    ensures Raises(opt, v) <==> OptionFound(v, Literal(opt))
  {
    hide FoundOption, Opens, Lower, AtEnd, Literal;
    var o := FirstScan(v[0]);
    if v[0] == ',' as int {
      CommaFirst();
      FromToken(opt, v[1..], o);
    } else {
      OpensFirst(v[0]);
      if Opens(v[0]) {
        FirstIsElement(opt, v);
        FromStart(opt, v, false);
      } else {
        FromToken(opt, v[1..], o);
      }
    }
  }

  /** A first octet that can begin a token begins the first element. */
  lemma FirstIsElement(opt: ConnOption, v: seq<byte>)
    requires v != [] && Opens(v[0]) && !IsBlank(v[0]) && v[0] != NUL && v[0] != ',' as int
    ensures OptionSteps(opt, OptionScan(START, false), v) == OptionSteps(opt, FirstScan(v[0]), v[1..])
  {
    hide Opens, Lower, OptionOctet, AtEnd;
    OpensFirst(v[0]);
    GeneralEnds(opt, ConnToken);
    StartEnds(opt);
  }

  lemma StartEnds(opt: ConnOption)
    ensures !AtEnd(opt, ConnTokenStart)
  {
  }

  /** For every value: the flag is raised if and only if the option is found, and so only if it is listed; hence the
      value is understood as the list of options it is if and only if the option, when it is listed, is found. */
  lemma OptionCondition(opt: ConnOption, v: seq<byte>)
    requires v != [] && !IsBlank(v[0]) && NUL !in v
    ensures Raises(opt, v) <==> OptionFound(v, Literal(opt))
    ensures Raises(opt, v) ==> Lists(v, Literal(opt))
    ensures (Raises(opt, v) <==> Lists(v, Literal(opt))) <==> (Lists(v, Literal(opt)) ==> OptionFound(v, Literal(opt)))
  {
    hide FoundOption, Lists, Opens, Raises, Literal, IsLiteral;
    RaisesExact(opt, v);
    KnownLiterals();
    if OptionFound(v, Literal(opt)) {
      if Opens(v[0]) {
        FoundListed(v, false, Literal(opt));
      } else {
        ListsInside(v[0], v[1..], Literal(opt));
        assert [v[0]] + v[1..] == v;
      }
    }
  }

  // ---------- well-formed lists ----------

  /** A token whose scan ends with it: not the beginning of a known option, behind which the matcher would miss
      the comma, and not beginning with an underscore, which it lower-cases to DEL. */
  predicate IsOptionText(e: seq<byte>) {
    && e != [] && AllTokens(e) && Token(Lower(e[0])) != 0
    && !Stem(e, CLOSE) && !Stem(e, KEEP_ALIVE) && !Stem(e, UPGRADE)
  }

  lemma OptionTextFacts(e: seq<byte>)
    requires IsOptionText(e)
    ensures DropSpaces(e) == e && Opens(e[0]) && !Stemmed(e)
    ensures e != [] && ',' as int !in e && NUL !in e && SP !in e && !IsBlank(e[0])
  {
    hide Lower, Begins;
    forall c | c in e ensures c != ',' as int && c != SP && c != NUL && c != HT {
      assert Token(c) != 0;
    }
    assert e[0] in e;
  }

  /** A space in front of an element makes no difference. */
  lemma FoundSpace(s: seq<byte>, l: string)
    ensures FoundOption([SP] + s, false, l) <==> FoundOption(s, false, l)
  {
    hide BeginsPadded, Opens, Stemmed, Comma, DropSpaces;
    CommaSpace(s);
  }

  lemma FoundBehind(e: seq<byte>, rest: seq<byte>, l: string)
    requires IsOptionText(e)
    ensures FoundOption(e + [',' as int] + rest, false, l) <==> Is(e, l) || FoundOption(rest, false, l)
  {
    hide BeginsPadded, Opens, Stemmed, Is, IsOptionText, DropSpaces, Comma;
    OptionTextFacts(e);
    UnpaddedIs(e, l);
    CommaAt(e, rest);
    var s := e + [',' as int] + rest;
    assert s[..|e|] == e && s[|e| + 1..] == rest;
    assert FoundOption(s[|e| + 1..], Stemmed(e), l) == FoundOption(rest, false, l);
  }

  lemma {:induction false} ListFound(es: seq<seq<byte>>, l: string)
    requires es != [] && forall i :: 0 <= i < |es| ==> IsOptionText(es[i])
    ensures FoundOption(ListText(es), false, l) <==> exists i :: 0 <= i < |es| && Is(es[i], l)
    ensures NUL !in ListText(es)
    decreases |es|
  {
    hide BeginsPadded, Opens, Stemmed, Is, IsOptionText, DropSpaces, Comma;
    var e, s := es[0], ListText(es);
    OptionTextFacts(e);
    UnpaddedIs(e, l);
    if |es| == 1 {
      CommaAt(e, []);
      assert s[..|e|] == e;
    } else {
      var rest := ListText(es[1..]);
      ListFound(es[1..], l);
      FoundSpace(rest, l);
      FoundBehind(e, [SP] + rest, l);
      assert s == e + [',' as int] + ([SP] + rest);
      AnyIs(es, l);
    }
  }

  lemma AnyIs(es: seq<seq<byte>>, l: string)
    requires es != []
    ensures (exists i :: 0 <= i < |es| && Is(es[i], l)) <==> Is(es[0], l) || exists i :: 0 <= i < |es[1..]| && Is(es[1..][i], l)
  {
    hide Is;
    if i :| 0 < i < |es| && Is(es[i], l) {
      assert es[1..][i - 1] == es[i];
    }
  }

  /** For a list of well-formed tokens the parser raises the flag of an option exactly if one of them is that option. */
  lemma OptionExact(opt: ConnOption, es: seq<seq<byte>>)
    requires es != [] && forall i :: 0 <= i < |es| ==> IsOptionText(es[i])
    ensures Raises(opt, ListText(es)) <==> exists i :: 0 <= i < |es| && Is(es[i], Literal(opt))
  {
    hide Raises, FoundOption, IsOptionText, Is, Opens, Token, Literal;
    var v := ListText(es);
    OptionTextFacts(es[0]);
    ListFound(es, Literal(opt));
    FirstOfList(es);
    RaisesExact(opt, v);
  }

  lemma FirstOfList(es: seq<seq<byte>>)
    requires es != [] && IsOptionText(es[0])
    ensures ListText(es) != [] && ListText(es)[0] == es[0][0]
  {
    hide Token, Lower, Begins;
  }

  /** Behind the beginning of a known option the matcher misses the comma: this list has "close", and the
      connection is kept. */
  lemma CloseMissed()
    ensures var v := Ascii("c, close"); Lists(v, CLOSE) && !Raises(CloseOption, v) && !OptionFound(v, CLOSE)
  {
    hide Raises, Lists, OptionFound;
    var v := Ascii("c, close");
    assert v == ['c' as int, ',' as int, SP, 'c' as int, 'l' as int, 'o' as int, 's' as int, 'e' as int];
    MissedListed(v);
    MissedScan(v);
    RaisesExact(CloseOption, v);
  }

  lemma MissedListed(v: seq<byte>)
    requires v == ['c' as int, ',' as int, SP, 'c' as int, 'l' as int, 'o' as int, 's' as int, 'e' as int]
    ensures Lists(v, CLOSE)
  {
    hide DropSpaces, LastElementIs;
    var q := [SP, 'c' as int, 'l' as int, 'o' as int, 's' as int, 'e' as int];
    assert v == ['c' as int] + [',' as int] + q;
    SpacedClose(q);
    KnownLiterals();
    PaddedElement(q, CLOSE);
    LastBehindIs(['c' as int], q, CLOSE);
    assert v[..|v|] == v;
    ListsHere(v, v, CLOSE);
  }

  lemma SpacedClose(q: seq<byte>)
    requires q == [SP, 'c' as int, 'l' as int, 'o' as int, 's' as int, 'e' as int]
    ensures BeginsPadded(DropSpaces(q), CLOSE)
  {
    var e := q[1..];
    assert DropSpaces(q) == DropSpaces(e) == e;
    assert Lower(e[0]) == CLOSE[0] as int && Lower(e[1]) == CLOSE[1] as int && Lower(e[2]) == CLOSE[2] as int
        && Lower(e[3]) == CLOSE[3] as int && Lower(e[4]) == CLOSE[4] as int;
    assert e[..5] == e;
  }

  lemma MissedScan(v: seq<byte>)
    requires v == ['c' as int, ',' as int, SP, 'c' as int, 'l' as int, 'o' as int, 's' as int, 'e' as int]
    ensures !Raises(CloseOption, v)
  {
    hide OptionSteps, Token;
    var o := OptionScan(Matcher(ConnMatchingClose, 0), false);
    assert Lower('c' as int) == 'c' as int;
    assert v[1..] == [',' as int] + v[2..];
    OptionStepsConcat(CloseOption, o, [',' as int], v[2..]);
    OptionStepsOne(CloseOption, o, ',' as int);
    TokenStays(CloseOption, OptionStep(CloseOption, o, ',' as int), v[2..]);
  }
}
