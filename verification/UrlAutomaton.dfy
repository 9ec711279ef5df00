/** The two automata of the URL parser, the fields that they label, and the spans of these fields. */
module UrlAutomaton {
  import opened Bytes
  import opened HttpTypes
  import opened HttpAct
  import opened HttpLength

  datatype UrlField = Schema | Host | Port | Path | Query | Fragment | Userinfo

  /** An entry of `field_data`. */
  datatype Span = Span(off: nat, len: nat)

  /** Storing in a `uint16_t`. */
  function U16(n: nat): nat {
    n % 0x1_0000
  }

  // ---------- labels ----------

  /** What each octet belongs to, if anything. */
  type Labels = seq<Option<UrlField>>

  /** `span` covers exactly the octets labelled `f`. */
  predicate Marked(labels: Labels, f: UrlField, span: Span) {
    && span.len > 0 && span.off + span.len <= |labels|
    && forall i :: 0 <= i < |labels| ==> (labels[i] == Some(f) <==> span.off <= i < span.off + span.len)
  }

  /** `fields` are exactly the fields that occur, each in one piece. */
  predicate Matches(labels: Labels, fields: map<UrlField, Span>) {
    forall f: UrlField :: if f in fields then Marked(labels, f, fields[f]) else Some(f) !in labels
  }

  lemma LabelNone(labels: Labels, fields: map<UrlField, Span>)
    requires Matches(labels, fields)
    ensures Matches(labels + [None], fields)
  {
    forall f: UrlField ensures if f in fields then Marked(labels + [None], f, fields[f]) else Some(f) !in labels + [None] {
      assert f in fields ==> Marked(labels, f, fields[f]);
      assert f !in fields ==> Some(f) !in labels;
    }
  }

  lemma LabelNew(labels: Labels, fields: map<UrlField, Span>, g: UrlField)
    requires Matches(labels, fields) && g !in fields
    ensures Matches(labels + [Some(g)], fields[g := Span(|labels|, 1)])
  {
    var l, m := labels + [Some(g)], fields[g := Span(|labels|, 1)];
    forall f: UrlField ensures if f in m then Marked(l, f, m[f]) else Some(f) !in l {
      assert f in fields ==> Marked(labels, f, fields[f]);
      assert f !in fields ==> Some(f) !in labels;
    }
  }

  lemma LabelMore(labels: Labels, fields: map<UrlField, Span>, g: UrlField)
    requires Matches(labels, fields) && g in fields && fields[g].off + fields[g].len == |labels|
    ensures Matches(labels + [Some(g)], fields[g := Span(fields[g].off, fields[g].len + 1)])
  {
    var l, m := labels + [Some(g)], fields[g := Span(fields[g].off, fields[g].len + 1)];
    forall f: UrlField ensures if f in m then Marked(l, f, m[f]) else Some(f) !in l {
      assert f in fields ==> Marked(labels, f, fields[f]);
      assert f !in fields ==> Some(f) !in labels;
    }
  }

  /** For each field that occurs, its first octet and the number of its octets. */
  function SpansOf(labels: Labels): map<UrlField, Span> {
    if labels == [] then map[]
    else
      var m, last := SpansOf(labels[..|labels| - 1]), labels[|labels| - 1];
      if last.None? then m
      else if last.value in m then m[last.value := Span(m[last.value].off, m[last.value].len + 1)]
      else m[last.value := Span(|labels| - 1, 1)]
  }

  lemma SpansSnoc(labels: Labels, l: Option<UrlField>)
    ensures var m := SpansOf(labels);
      SpansOf(labels + [l]) ==
        if l.None? then m
        else if l.value in m then m[l.value := Span(m[l.value].off, m[l.value].len + 1)]
        else m[l.value := Span(|labels|, 1)]
  {
    assert (labels + [l])[..|labels|] == labels;
  }

  lemma {:induction false} SpansOccur(labels: Labels, f: UrlField)
    ensures f in SpansOf(labels) <==> Some(f) in labels
    decreases |labels|
  {
    if labels != [] {
      var init, last := labels[..|labels| - 1], labels[|labels| - 1];
      SpansOccur(init, f);
      assert labels == init + [last];
    }
  }

  /** One more label keeps every field in one piece, if a field that goes on has not been left yet. */
  lemma MatchesSnoc(labels: Labels, l: Option<UrlField>)
    requires Matches(labels, SpansOf(labels))
    requires l.Some? && l.value in SpansOf(labels) ==>
      SpansOf(labels)[l.value].off + SpansOf(labels)[l.value].len == |labels|
    ensures Matches(labels + [l], SpansOf(labels + [l]))
  {
    hide Matches, SpansOf;
    var m := SpansOf(labels);
    SpansSnoc(labels, l);
    if l.None? {
      LabelNone(labels, m);
    } else if l.value in m {
      LabelMore(labels, m, l.value);
    } else {
      LabelNew(labels, m, l.value);
    }
  }

  // ---------- the URL ----------

  /** The field an octet belongs to that led to state `s`. */
  function FieldOf(s: State): Option<UrlField> {
    if s.ReqSchema? then Some(Schema)
    else if s.ReqServer? || s.ReqServerWithAt? then Some(Host)
    else if s.ReqPath? then Some(Path)
    else if s.ReqQueryString? then Some(Query)
    else if s.ReqFragment? then Some(Fragment)
    else None
  }

  function Start(isConnect: bool): State {
    if isConnect then ReqServerStart else ReqSpacesBeforeUrl
  }

  /** The state of parse_url_char after `buf`. */
  function Scan(s: State, buf: seq<byte>): State {
    if buf == [] then s else ParseUrlChar(Scan(s, buf[..|buf| - 1]), buf[|buf| - 1])
  }

  function UrlLabels(s: State, buf: seq<byte>): (l: Labels)
    ensures |l| == |buf|
  {
    if buf == [] then [] else UrlLabels(s, buf[..|buf| - 1]) + [FieldOf(Scan(s, buf))]
  }

  /** `parse_url_char` only ever moves forward through the parts of a URL. */
  function UrlRank(s: State): nat {
    if s.ReqSpacesBeforeUrl? then 0 else if s.ReqSchema? then 1
    else if s.ReqSchemaSlash? || s.ReqSchemaSlashSlash? then 2 else if s.ReqServerStart? then 3
    else if s.ReqServer? || s.ReqServerWithAt? then 4 else if s.ReqPath? then 5
    else if s.ReqQueryStringStart? then 6 else if s.ReqQueryString? then 7
    else if s.ReqFragmentStart? then 8 else if s.ReqFragment? then 9 else 10
  }

  function FieldRank(f: UrlField): nat {
    match f case Schema => 1 case Host => 4 case Path => 5 case Query => 7 case Fragment => 9 case _ => 10
  }

  lemma UrlForward(s: State, ch: byte)
    ensures ParseUrlChar(s, ch) != Dead ==> InUrl(ParseUrlChar(s, ch)) && UrlRank(s) <= UrlRank(ParseUrlChar(s, ch))
  {
    hide IsUrlChar, IsUserinfoChar, IsAlpha;
  }

  lemma FieldRanks(s: State, f: UrlField)
    requires InUrl(s) || s == ReqSpacesBeforeUrl
    ensures FieldOf(s) == Some(f) <==> UrlRank(s) == FieldRank(f)
  {
  }

  // ---------- the host ----------

  datatype HostState =
    | HostDead | UserinfoStart | InUserinfo | HostStart | V6Start | InHost | InV6 | V6End | ZoneStart | InZone
    | PortStart | InPort

  /** http_parse_host_char */
  function ParseHostChar(s: HostState, ch: byte): HostState {
    if s.InUserinfo? || s.UserinfoStart? then
      (if ch == '@' as int then HostStart else if IsUserinfoChar(ch) then InUserinfo else HostDead)
    else if s.HostStart? then
      (if ch == '[' as int then V6Start else if IsHostChar(ch) then InHost else HostDead)
    else if s.InHost? && IsHostChar(ch) then InHost
    else if s.InHost? || s.V6End? then (if ch == ':' as int then PortStart else HostDead)
    else if s.InV6? && ch == ']' as int then V6End
    else if s.InV6? || s.V6Start? then
      (if IsHex(ch) || ch == ':' as int || ch == '.' as int then InV6
       else if s.InV6? && ch == '%' as int then ZoneStart else HostDead)
    else if s.InZone? && ch == ']' as int then V6End
    else if s.InZone? || s.ZoneStart? then
      (if IsAlphaNum(ch) || ch == '%' as int || ch == '.' as int || ch == '-' as int || ch == '_' as int || ch == '~' as int
       then InZone else HostDead)
    else if s.InPort? || s.PortStart? then (if IsNum(ch) then InPort else HostDead)
    else HostDead
  }

  function HostFieldOf(s: HostState): Option<UrlField> {
    if s.InUserinfo? then Some(Userinfo)
    else if s.InHost? || s.InV6? || s.ZoneStart? || s.InZone? then Some(Host)
    else if s.InPort? then Some(Port)
    else None
  }

  function HostBegin(foundAt: bool): HostState {
    if foundAt then UserinfoStart else HostStart
  }

  function HostScan(s: HostState, buf: seq<byte>): HostState {
    if buf == [] then s else ParseHostChar(HostScan(s, buf[..|buf| - 1]), buf[|buf| - 1])
  }

  function HostLabels(s: HostState, buf: seq<byte>): (l: Labels)
    ensures |l| == |buf|
  {
    if buf == [] then [] else HostLabels(s, buf[..|buf| - 1]) + [HostFieldOf(HostScan(s, buf))]
  }

  /** The states in which a host may end. */
  predicate HostDone(s: HostState) {
    s.InHost? || s.V6End? || s.InPort?
  }

  function HostRank(s: HostState): nat {
    match s
    case UserinfoStart => 0 case InUserinfo => 1 case HostStart => 2 case V6Start => 3
    case InHost => 4 case InV6 => 4 case ZoneStart => 4 case InZone => 4
    case V6End => 5 case PortStart => 6 case InPort => 7 case HostDead => 8
  }

  function HostFieldRank(f: UrlField): nat {
    match f case Userinfo => 1 case Host => 4 case Port => 7 case _ => 8
  }

  lemma HostForward(s: HostState, ch: byte)
    ensures HostRank(s) <= HostRank(ParseHostChar(s, ch))
    ensures var t := ParseHostChar(s, ch);
      && (t.InHost? && !s.InHost? ==> s.HostStart?) && (t.InV6? && !s.InV6? ==> s.V6Start?)
      && (t.ZoneStart? || t.InZone? ==> HostFieldOf(s) == Some(Host))
      && (t.InPort? ==> IsNum(ch) && (s.PortStart? || s.InPort?))
      && (t.V6End? ==> HostFieldOf(s) == Some(Host)) && (t.PortStart? ==> s.InHost? || s.V6End?)
  {
    hide IsUserinfoChar, IsHostChar, IsHex, IsAlphaNum;
  }

  lemma HostFieldRanks(s: HostState, f: UrlField)
    requires s != HostDead
    ensures HostFieldOf(s) == Some(f) <==> HostRank(s) == HostFieldRank(f)
  {
  }

  // ---------- every field is one piece ----------

  /** Where the fields found so far stand: none lies ahead, and only the current one may still grow. */
  predicate Behind(m: map<UrlField, Span>, rank: nat, fieldRank: UrlField -> nat, n: nat) {
    forall f :: f in m ==> fieldRank(f) <= rank && (fieldRank(f) == rank ==> m[f].off + m[f].len == n)
  }

  lemma {:induction false} UrlRun(s: State, buf: seq<byte>)
    requires (s == ReqServerStart || s == ReqSpacesBeforeUrl) && Scan(s, buf) != Dead
    ensures var labels, t := UrlLabels(s, buf), Scan(s, buf);
      && (InUrl(t) || t == s)
      && Matches(labels, SpansOf(labels)) && Behind(SpansOf(labels), UrlRank(t), FieldRank, |buf|)
    decreases |buf|
  {
    hide ParseUrlChar, FieldOf, UrlRank, FieldRank, Matches, SpansOf;
    if buf == [] {
      NoLabels();
    } else {
      var init, ch := buf[..|buf| - 1], buf[|buf| - 1];
      DeadEnd(ch);
      UrlRun(s, init);
      var labels, t := UrlLabels(s, init), Scan(s, buf);
      UrlForward(Scan(s, init), ch);
      MarkedRanks(labels, FieldOf(t), Scan(s, init), t);
      MatchesSnoc(labels, FieldOf(t));
    }
  }

  lemma NoLabels()
    ensures SpansOf([]) == map[] && Matches([], SpansOf([]))
  {
  }

  lemma DeadEnd(ch: byte)
    ensures ParseUrlChar(Dead, ch) == Dead && ParseHostChar(HostDead, ch) == HostDead
  {
  }

  lemma MarkedRanks(labels: Labels, l: Option<UrlField>, s: State, t: State)
    requires InUrl(t) && (InUrl(s) || s == ReqSpacesBeforeUrl) && UrlRank(s) <= UrlRank(t) && l == FieldOf(t)
    requires Behind(SpansOf(labels), UrlRank(s), FieldRank, |labels|)
    ensures l.Some? && l.value in SpansOf(labels) ==>
      FieldOf(s) == l && SpansOf(labels)[l.value].off + SpansOf(labels)[l.value].len == |labels|
    ensures Behind(SpansOf(labels + [l]), UrlRank(t), FieldRank, |labels| + 1)
  {
    hide SpansOf, FieldOf, UrlRank, FieldRank, InUrl;
    SpansSnoc(labels, l);
    forall f | f in SpansOf(labels + [l])
      ensures FieldRank(f) <= UrlRank(t)
      ensures FieldRank(f) == UrlRank(t) ==> SpansOf(labels + [l])[f].off + SpansOf(labels + [l])[f].len == |labels| + 1
    {
      FieldRanks(t, f);
      FieldRanks(s, f);
    }
    if l.Some? {
      FieldRanks(t, l.value);
      FieldRanks(s, l.value);
    }
  }

  lemma {:induction false} HostRun(s: HostState, off: nat, buf: seq<byte>)
    requires (s == UserinfoStart || s == HostStart) && HostScan(s, buf) != HostDead
    ensures var labels, t := Gap(off) + HostLabels(s, buf), HostScan(s, buf);
      && Matches(labels, SpansOf(labels)) && Behind(SpansOf(labels), HostRank(t), HostFieldRank, off + |buf|)
    decreases |buf|
  {
    hide ParseHostChar, HostFieldOf, HostRank, HostFieldRank, Matches, SpansOf;
    if buf == [] {
      GapMatches(off);
      assert Gap(off) + [] == Gap(off);
    } else {
      var init, ch := buf[..|buf| - 1], buf[|buf| - 1];
      DeadEnd(ch);
      HostRun(s, off, init);
      var labels, t := Gap(off) + HostLabels(s, init), HostScan(s, buf);
      HostForward(HostScan(s, init), ch);
      HostMarkedRanks(labels, HostFieldOf(t), HostScan(s, init), t);
      MatchesSnoc(labels, HostFieldOf(t));
      assert Gap(off) + HostLabels(s, buf) == labels + [HostFieldOf(t)];
    }
  }

  /** Beyond the host there is a host; in the port there is a port. */
  lemma {:induction false} HostSeen(s: HostState, off: nat, buf: seq<byte>)
    requires (s == UserinfoStart || s == HostStart) && HostScan(s, buf) != HostDead
    ensures var m, t := SpansOf(Gap(off) + HostLabels(s, buf)), HostScan(s, buf);
      && (t.InHost? || t.InV6? || t.ZoneStart? || t.InZone? || t.V6End? || t.PortStart? || t.InPort? ==> Host in m)
      && (t.InPort? ==> Port in m) && (t.InUserinfo? ==> Userinfo in m)
    decreases |buf|
  {
    hide ParseHostChar, SpansOf;
    if buf != [] {
      var init, ch := buf[..|buf| - 1], buf[|buf| - 1];
      DeadEnd(ch);
      HostSeen(s, off, init);
      HostForward(HostScan(s, init), ch);
      var labels, t := Gap(off) + HostLabels(s, init), HostScan(s, buf);
      assert Gap(off) + HostLabels(s, buf) == labels + [HostFieldOf(t)];
      SpansSnoc(labels, HostFieldOf(t));
    }
  }

  /** The octets in front of the host. */
  function Gap(n: nat): (l: Labels)
    ensures |l| == n
  {
    if n == 0 then [] else Gap(n - 1) + [None]
  }

  lemma {:induction false} GapMatches(n: nat)
    ensures SpansOf(Gap(n)) == map[] && Matches(Gap(n), map[])
  {
    hide Matches, SpansOf;
    NoLabels();
    if n > 0 {
      GapMatches(n - 1);
      SpansSnoc(Gap(n - 1), None);
      LabelNone(Gap(n - 1), map[]);
    }
  }

  lemma HostMarkedRanks(labels: Labels, l: Option<UrlField>, s: HostState, t: HostState)
    requires s != HostDead && t != HostDead && HostRank(s) <= HostRank(t) && l == HostFieldOf(t)
    requires Behind(SpansOf(labels), HostRank(s), HostFieldRank, |labels|)
    ensures l.Some? && l.value in SpansOf(labels) ==>
      HostFieldOf(s) == l && SpansOf(labels)[l.value].off + SpansOf(labels)[l.value].len == |labels|
    ensures Behind(SpansOf(labels + [l]), HostRank(t), HostFieldRank, |labels| + 1)
  {
    hide SpansOf, HostFieldOf, HostRank, HostFieldRank;
    SpansSnoc(labels, l);
    forall f | f in SpansOf(labels + [l])
      ensures HostFieldRank(f) <= HostRank(t)
      ensures HostFieldRank(f) == HostRank(t) ==> SpansOf(labels + [l])[f].off + SpansOf(labels + [l])[f].len == |labels| + 1
    {
      HostFieldRanks(t, f);
      HostFieldRanks(s, f);
    }
    if l.Some? {
      HostFieldRanks(t, l.value);
      HostFieldRanks(s, l.value);
    }
  }

  // ---------- fields do not overlap ----------

  predicate Ranked(m: map<UrlField, Span>, fieldRank: UrlField -> nat) {
    forall f, g :: f in m && g in m && fieldRank(f) < fieldRank(g) ==> m[f].off + m[f].len <= m[g].off
  }

  lemma RankedSnoc(labels: Labels, l: Option<UrlField>, rank: nat, fieldRank: UrlField -> nat)
    requires Matches(labels, SpansOf(labels)) && Ranked(SpansOf(labels), fieldRank)
    requires Behind(SpansOf(labels + [l]), rank, fieldRank, |labels| + 1) && (l.Some? ==> fieldRank(l.value) == rank)
    ensures Ranked(SpansOf(labels + [l]), fieldRank)
  {
    hide SpansOf;
    var m, m' := SpansOf(labels), SpansOf(labels + [l]);
    SpansSnoc(labels, l);
    forall f, g | f in m' && g in m' && fieldRank(f) < fieldRank(g) ensures m'[f].off + m'[f].len <= m'[g].off {
      assert fieldRank(g) <= rank;
      assert f in m && m'[f] == m[f];
      assert Marked(labels, f, m[f]);
    }
  }

  lemma {:induction false} UrlRanked(s: State, buf: seq<byte>)
    requires (s == ReqServerStart || s == ReqSpacesBeforeUrl) && Scan(s, buf) != Dead
    ensures Ranked(SpansOf(UrlLabels(s, buf)), FieldRank)
    decreases |buf|
  {
    hide ParseUrlChar, FieldOf, UrlRank, FieldRank, Matches, SpansOf, Behind, Ranked;
    if buf == [] {
      NothingRanked();
    } else {
      var init := buf[..|buf| - 1];
      DeadEnd(buf[|buf| - 1]);
      UrlRanked(s, init);
      UrlRun(s, init);
      UrlRun(s, buf);
      var t := Scan(s, buf);
      if FieldOf(t).Some? {
        FieldRanks(t, FieldOf(t).value);
      }
      RankedSnoc(UrlLabels(s, init), FieldOf(t), UrlRank(t), FieldRank);
    }
  }

  lemma NothingRanked()
    ensures Ranked(SpansOf([]), FieldRank)
  {
  }

  lemma {:induction false} HostRanked(s: HostState, off: nat, buf: seq<byte>)
    requires (s == UserinfoStart || s == HostStart) && HostScan(s, buf) != HostDead
    ensures Ranked(SpansOf(Gap(off) + HostLabels(s, buf)), HostFieldRank)
    decreases |buf|
  {
    hide ParseHostChar, HostFieldOf, HostRank, HostFieldRank, Matches, SpansOf, Behind, Ranked;
    if buf == [] {
      GapMatches(off);
      assert Gap(off) + [] == Gap(off);
      assert Ranked(map[], HostFieldRank) by { NoneRanked(); }
    } else {
      var init := buf[..|buf| - 1];
      DeadEnd(buf[|buf| - 1]);
      HostRanked(s, off, init);
      HostRun(s, off, init);
      HostRun(s, off, buf);
      var t, labels := HostScan(s, buf), Gap(off) + HostLabels(s, init);
      assert Gap(off) + HostLabels(s, buf) == labels + [HostFieldOf(t)];
      if HostFieldOf(t).Some? {
        HostFieldRanks(t, HostFieldOf(t).value);
      }
      RankedSnoc(labels, HostFieldOf(t), HostRank(t), HostFieldRank);
    }
  }

  lemma NoneRanked()
    ensures Ranked(map[], HostFieldRank)
  {
  }

  // ---------- the whole URL ----------

  function UrlSpans(buf: seq<byte>, isConnect: bool): map<UrlField, Span> {
    SpansOf(UrlLabels(Start(isConnect), buf))
  }

  /** The server part held an '@'. */
  predicate FoundAt(s: State, buf: seq<byte>) {
    buf != [] && (FoundAt(s, buf[..|buf| - 1]) || Scan(s, buf).ReqServerWithAt?)
  }

  /** The octets of a span. */
  function Text(buf: seq<byte>, span: Span): (t: seq<byte>) {
    if span.off + span.len <= |buf| then buf[span.off..span.off + span.len] else []
  }

  /** The fields inside the server part. */
  function HostSpans(buf: seq<byte>, isConnect: bool, h: Span): map<UrlField, Span> {
    SpansOf(Gap(h.off) + HostLabels(HostBegin(FoundAt(Start(isConnect), buf)), Text(buf, h)))
  }

  predicate HostOk(buf: seq<byte>, isConnect: bool, h: Span) {
    HostDone(HostScan(HostBegin(FoundAt(Start(isConnect), buf)), Text(buf, h)))
  }

  function AllSpans(buf: seq<byte>, isConnect: bool): map<UrlField, Span> {
    var m := UrlSpans(buf, isConnect);
    if Host in m then (m - {Host}) + HostSpans(buf, isConnect, m[Host]) else m
  }

  function Decimal(s: seq<byte>): nat {
    if IsDecimal(s) then DecimalFrom(0, s) else 0
  }

  /** The text splits into fields: a scheme needs a host, and the host must be well-formed. */
  predicate Splits(buf: seq<byte>, isConnect: bool) {
    var m := UrlSpans(buf, isConnect);
    && buf != [] && Scan(Start(isConnect), buf) != Dead
    && (Schema in m ==> Host in m)
    && (Host in m ==> HostOk(buf, isConnect, m[Host]))
  }

  /** The URLs that http_parser_parse_url accepts: CONNECT takes a host and a port only, and a port has 16 bits. */
  predicate Accepts(buf: seq<byte>, isConnect: bool) {
    var all := AllSpans(buf, isConnect);
    && Splits(buf, isConnect)
    && (isConnect ==> all.Keys == {Host, Port})
    && (Port in all ==> Decimal(Text(buf, all[Port])) <= 0xffff)
  }

  /** The order in which the fields of a URL are written. */
  function Position(f: UrlField): nat {
    match f case Schema => 0 case Userinfo => 1 case Host => 2 case Port => 3 case Path => 4 case Query => 5 case Fragment => 6
  }

  lemma UrlKinds(buf: seq<byte>, isConnect: bool)
    requires Scan(Start(isConnect), buf) != Dead
    ensures Port !in UrlSpans(buf, isConnect) && Userinfo !in UrlSpans(buf, isConnect)
  {
    hide SpansOf, Behind, Matches;
    UrlRun(Start(isConnect), buf);
    UrlOnly(Start(isConnect), buf);
    SpansOccur(UrlLabels(Start(isConnect), buf), Port);
    SpansOccur(UrlLabels(Start(isConnect), buf), Userinfo);
  }

  lemma {:induction false} UrlOnly(s: State, buf: seq<byte>)
    ensures Some(Port) !in UrlLabels(s, buf) && Some(Userinfo) !in UrlLabels(s, buf)
    decreases |buf|
  {
    hide ParseUrlChar;
    if buf != [] {
      UrlOnly(s, buf[..|buf| - 1]);
    }
  }

  lemma {:induction false} HostOnly(s: HostState, buf: seq<byte>)
    ensures forall f :: Some(f) in HostLabels(s, buf) ==> f == Userinfo || f == Host || f == Port
    decreases |buf|
  {
    hide ParseHostChar;
    if buf != [] {
      HostOnly(s, buf[..|buf| - 1]);
    }
  }

  lemma {:induction false} GapIsNone(n: nat)
    ensures forall i :: 0 <= i < n ==> Gap(n)[i] == None
  {
    if n > 0 {
      GapIsNone(n - 1);
    }
  }

  predicate IsServerField(f: UrlField) {
    f == Userinfo || f == Host || f == Port
  }

  /** The fields of the server part: inside the span of the server, one after another. */
  predicate InServer(hm: map<UrlField, Span>, server: Span) {
    && Ranked(hm, HostFieldRank)
    && forall f :: f in hm ==> IsServerField(f) && server.off <= hm[f].off && 0 < hm[f].len
                               && hm[f].off + hm[f].len <= server.off + server.len
  }

  /** The fields inside the server part lie inside it. */
  lemma HostInside(buf: seq<byte>, isConnect: bool, h: Span)
    requires h.off + h.len <= |buf| && HostOk(buf, isConnect, h)
    ensures var m := HostSpans(buf, isConnect, h);
      Host in m && InServer(m, h)
  {
    hide SpansOf, Behind, HostScan, HostLabels, FoundAt, Ranked;
    var s, text := HostBegin(FoundAt(Start(isConnect), buf)), Text(buf, h);
    var labels := Gap(h.off) + HostLabels(s, text);
    var m := HostSpans(buf, isConnect, h);
    HostRun(s, h.off, text);
    HostSeen(s, h.off, text);
    HostRanked(s, h.off, text);
    HostOnly(s, text);
    GapIsNone(h.off);
    assert forall i :: 0 <= i < h.off ==> labels[i] == Gap(h.off)[i];
    forall f | f in m
      ensures (f == Userinfo || f == Host || f == Port) && h.off <= m[f].off && 0 < m[f].len
      ensures m[f].off + m[f].len <= h.off + h.len
    {
      assert Marked(labels, f, m[f]);
      assert labels[m[f].off] == Some(f);
      assert m[f].off >= h.off;
      assert labels[m[f].off] == HostLabels(s, text)[m[f].off - h.off];
    }
  }

  lemma UrlInside(buf: seq<byte>, isConnect: bool)
    requires Scan(Start(isConnect), buf) != Dead
    ensures var m := UrlSpans(buf, isConnect);
      && Ranked(m, FieldRank) && Port !in m && Userinfo !in m
      && forall f :: f in m ==> 0 < m[f].len && m[f].off + m[f].len <= |buf|
  {
    hide SpansOf, Behind, Scan, UrlLabels, Ranked, ParseUrlChar;
    UrlRun(Start(isConnect), buf);
    UrlRanked(Start(isConnect), buf);
    UrlKinds(buf, isConnect);
    var m := UrlSpans(buf, isConnect);
    assert forall f :: f in m ==> Marked(UrlLabels(Start(isConnect), buf), f, m[f]);
  }

  /** Nonempty spans inside `n` octets, one after another in the order in which a URL is written. */
  predicate InOrder(m: map<UrlField, Span>, n: nat) {
    && (forall f :: f in m ==> 0 < m[f].len && m[f].off + m[f].len <= n)
    && (forall f, g :: f in m && g in m && Position(f) < Position(g) ==> m[f].off + m[f].len <= m[g].off)
  }

  lemma OuterInOrder(u: map<UrlField, Span>, n: nat)
    requires Ranked(u, FieldRank) && Port !in u && Userinfo !in u
    requires forall f :: f in u ==> 0 < u[f].len && u[f].off + u[f].len <= n
    ensures InOrder(u, n)
  {
    forall f, g | f in u && g in u && Position(f) < Position(g) ensures u[f].off + u[f].len <= u[g].off {
      assert FieldRank(f) < FieldRank(g);
    }
  }

  lemma ServerOrder(hm: map<UrlField, Span>, f: UrlField, g: UrlField)
    requires Ranked(hm, HostFieldRank) && f in hm && g in hm && IsServerField(f) && IsServerField(g)
    requires Position(f) < Position(g)
    ensures hm[f].off + hm[f].len <= hm[g].off
  {
    assert HostFieldRank(f) < HostFieldRank(g);
  }

  lemma OuterOrder(u: map<UrlField, Span>, n: nat, f: UrlField, g: UrlField)
    requires InOrder(u, n) && f in u && g in u && Position(f) < Position(g)
    ensures u[f].off + u[f].len <= u[g].off
  {
  }

  /** The server part stands together: no other field is written between its fields. */
  lemma ServerTogether(f: UrlField, g: UrlField)
    requires Position(f) < Position(g)
    ensures IsServerField(f) && !IsServerField(g) ==> Position(Host) < Position(g)
    ensures !IsServerField(f) && IsServerField(g) ==> Position(f) < Position(Host)
  {
  }

  lemma PairInOrder(u: map<UrlField, Span>, hm: map<UrlField, Span>, n: nat, f: UrlField, g: UrlField)
    requires InOrder(u, n) && Host in u && Port !in u && Userinfo !in u && InServer(hm, u[Host])
    requires var m := (u - {Host}) + hm; f in m && g in m && Position(f) < Position(g)
    ensures var m := (u - {Host}) + hm; m[f].off + m[f].len <= m[g].off
  {
    hide InOrder, Ranked, Position;
    ServerTogether(f, g);
    if f in hm && g in hm {
      ServerOrder(hm, f, g);
    } else if f in hm {
      OuterOrder(u, n, Host, g);
    } else if g in hm {
      OuterOrder(u, n, f, Host);
    } else {
      OuterOrder(u, n, f, g);
    }
  }

  lemma MergedInside(u: map<UrlField, Span>, hm: map<UrlField, Span>, n: nat, f: UrlField)
    requires InOrder(u, n) && Host in u && InServer(hm, u[Host]) && f in (u - {Host}) + hm
    ensures var m := (u - {Host}) + hm; 0 < m[f].len && m[f].off + m[f].len <= n
  {
    hide Ranked, Position;
  }

  /** Putting the fields of the server part in its place. */
  lemma MergedInOrder(u: map<UrlField, Span>, hm: map<UrlField, Span>, n: nat)
    requires InOrder(u, n) && Host in u && Port !in u && Userinfo !in u && InServer(hm, u[Host])
    ensures InOrder((u - {Host}) + hm, n)
  {
    hide InServer, Position;
    var m := (u - {Host}) + hm;
    forall f | f in m ensures 0 < m[f].len && m[f].off + m[f].len <= n {
      MergedInside(u, hm, n, f);
    }
    forall f, g | f in m && g in m && Position(f) < Position(g) ensures m[f].off + m[f].len <= m[g].off {
      PairInOrder(u, hm, n, f, g);
    }
  }

  /** The spans are sound: whenever a URL is accepted, every field that is set lies inside the text, and
      the fields follow one another without overlap, in the order in which a URL is written. */
  lemma SpansSound(buf: seq<byte>, isConnect: bool)
    requires Accepts(buf, isConnect)
    ensures InOrder(AllSpans(buf, isConnect), |buf|)
  {
    hide SpansOf, Scan, UrlLabels, HostScan, HostLabels, FoundAt, UrlSpans, HostSpans, HostOk, InOrder, Ranked;
    UrlInside(buf, isConnect);
    var u := UrlSpans(buf, isConnect);
    OuterInOrder(u, |buf|);
    if Host in u {
      HostInside(buf, isConnect, u[Host]);
      MergedInOrder(u, HostSpans(buf, isConnect, u[Host]), |buf|);
    }
  }

  /** What the spans cover: each of the outer fields covers exactly the octets that the URL automaton
      assigns to it, and each field of the server part exactly those that the host automaton does. */
  lemma SpansExact(buf: seq<byte>, isConnect: bool)
    requires Accepts(buf, isConnect)
    ensures Matches(UrlLabels(Start(isConnect), buf), UrlSpans(buf, isConnect))
    ensures var u := UrlSpans(buf, isConnect);
      Host in u ==>
        Matches(Gap(u[Host].off) + HostLabels(HostBegin(FoundAt(Start(isConnect), buf)), Text(buf, u[Host])),
                HostSpans(buf, isConnect, u[Host]))
  {
    hide Scan, HostScan, SpansOf, Matches, Behind, AllSpans;
    UrlRun(Start(isConnect), buf);
    var u := UrlSpans(buf, isConnect);
    if Host in u {
      HostRun(HostBegin(FoundAt(Start(isConnect), buf)), u[Host].off, Text(buf, u[Host]));
    }
  }

  // ---------- past the scheme ----------

  lemma InsideUrl(s: State, t: seq<byte>)
    requires t != [] && Scan(s, t) != Dead
    ensures InUrl(Scan(s, t))
  {
    hide ParseUrlChar, InUrl;
    UrlForward(Scan(s, t[..|t| - 1]), t[|t| - 1]);
  }

  /** As long as the automaton is before the server, the URL has a scheme and no host. */
  lemma {:induction false} SchemeSeen(t: seq<byte>)
    requires t != [] && Scan(ReqSpacesBeforeUrl, t) != Dead && InUrlPrefix(Scan(ReqSpacesBeforeUrl, t))
    ensures Some(Schema) in UrlLabels(ReqSpacesBeforeUrl, t)
    decreases |t|
  {
    hide ParseUrlChar, InUrlPrefix;
    var init, ch := t[..|t| - 1], t[|t| - 1];
    var labels := UrlLabels(ReqSpacesBeforeUrl, init);
    assert UrlLabels(ReqSpacesBeforeUrl, t) == labels + [FieldOf(Scan(ReqSpacesBeforeUrl, t))];
    BeforePrefix(Scan(ReqSpacesBeforeUrl, init), ch);
    DeadEnd(ch);
    if Scan(ReqSpacesBeforeUrl, t) != ReqSchema {
      assert init != [];
      SchemeSeen(init);
    }
  }

  lemma BeforePrefix(s: State, ch: byte)
    requires InUrlPrefix(ParseUrlChar(s, ch))
    ensures InUrlPrefix(s) || (ParseUrlChar(s, ch) == ReqSchema && s == ReqSpacesBeforeUrl)
    ensures !InUrlPrefix(ReqSpacesBeforeUrl) && FieldOf(ReqSchema) == Some(Schema)
    ensures s != ReqServerStart
  {
    hide IsUrlChar, IsUserinfoChar, IsAlpha;
  }

  lemma PrefixRank(s: State)
    ensures InUrlPrefix(s) ==> UrlRank(s) < FieldRank(Host)
  {
  }

  lemma PastTheScheme(s0: State, t: seq<byte>, isConnect: bool)
    requires s0 == Start(isConnect) && Splits(t, isConnect)
    ensures !InUrlPrefix(Scan(s0, t))
  {
    hide ParseUrlChar, InUrlPrefix, HostOk, SpansOf, Matches, UrlRank, FieldRank;
    if isConnect {
      ConnectLeaves(t);
    } else {
      UrlRun(s0, t);
      PrefixRank(Scan(s0, t));
      SpansOccur(UrlLabels(s0, t), Schema);
      if InUrlPrefix(Scan(s0, t)) {
        SchemeSeen(t);
      }
    }
  }

  lemma {:induction false} ConnectLeaves(t: seq<byte>)
    requires t != [] && Scan(ReqServerStart, t) != Dead
    ensures !InUrlPrefix(Scan(ReqServerStart, t))
    decreases |t|
  {
    hide ParseUrlChar, InUrlPrefix;
    var init, ch := t[..|t| - 1], t[|t| - 1];
    DeadEnd(ch);
    if init != [] {
      ConnectLeaves(init);
      InsideUrl(ReqServerStart, init);
    }
    if InUrlPrefix(Scan(ReqServerStart, t)) {
      BeforePrefix(Scan(ReqServerStart, init), ch);
    }
  }
}
