/** The server part of a URL as a text: user information, host and port, as http_parse_host accepts and divides it. */
module UrlServer {
  import opened Bytes
  import opened HttpTypes
  import opened HttpAct
  import opened HttpLength
  import opened UrlAutomaton
  import opened UrlGrammar

  /** A name, or an address in brackets, which may have a zone. */
  datatype HostName = Name(text: seq<byte>) | Address(text: seq<byte>, zone: Option<seq<byte>>)

  datatype Server = Server(user: Option<seq<byte>>, host: HostName, port: Option<seq<byte>>)

  function UserText(user: Option<seq<byte>>): seq<byte> {
    if user.Some? then user.value + ['@' as int] else []
  }

  /** What is written of the address, without its brackets. */
  function Inside(text: seq<byte>, zone: Option<seq<byte>>): seq<byte> {
    text + Led('%' as int, zone)
  }

  function HostText(h: HostName): seq<byte> {
    match h
    case Name(text) => text
    case Address(text, zone) => ['[' as int] + Inside(text, zone) + [']' as int]
  }

  function ServerText(s: Server): seq<byte> {
    UserText(s.user) + HostText(s.host) + Led(':' as int, s.port)
  }

  predicate HostNameOk(h: HostName) {
    match h
    case Name(text) => text != [] && All(text, HostOctet)
    case Address(text, zone) =>
      text != [] && All(text, AddressOctet) && (zone.Some? ==> zone.value != [] && All(zone.value, ZoneOctet))
  }

  /** Only the user information may be empty where it is present. */
  predicate ServerOk(s: Server) {
    && (s.user.Some? ==> All(s.user.value, UserOctet))
    && HostNameOk(s.host)
    && (s.port.Some? ==> s.port.value != [] && All(s.port.value, IsNum))
  }

  function UserPiece(off: nat, user: Option<seq<byte>>): map<UrlField, Span> {
    if user.Some? then Piece(Userinfo, off, |user.value|) else map[]
  }

  /** The brackets are no part of the host, the zone is. */
  function HostPiece(off: nat, h: HostName): map<UrlField, Span> {
    match h
    case Name(text) => Piece(Host, off, |text|)
    case Address(text, zone) => Piece(Host, off + 1, |Inside(text, zone)|)
  }

  function PortPiece(off: nat, port: Option<seq<byte>>): map<UrlField, Span> {
    if port.Some? then Piece(Port, off + 1, |port.value|) else map[]
  }

  /** The fields of a server part that begins at `off`. */
  function ServerPieces(off: nat, s: Server): map<UrlField, Span> {
    var at := off + |UserText(s.user)|;
    UserPiece(off, s.user) + HostPiece(at, s.host) + PortPiece(at + |HostText(s.host)|, s.port)
  }

  // ---------- the host automaton on each kind of octet ----------

  lemma UserChar(s: HostState, c: byte)
    requires s.UserinfoStart? || s.InUserinfo?
    ensures ParseHostChar(s, c) == if c == '@' as int then HostStart else if UserOctet(c) then InUserinfo else HostDead
  {
    OctetClasses(c);
  }

  lemma HostChar(c: byte)
    ensures ParseHostChar(HostStart, c) == if c == '[' as int then V6Start else if HostOctet(c) then InHost else HostDead
    ensures ParseHostChar(InHost, c) == if HostOctet(c) then InHost else if c == ':' as int then PortStart else HostDead
    ensures ParseHostChar(V6End, c) == if c == ':' as int then PortStart else HostDead
  {
    OctetClasses(c);
  }

  lemma AddressChar(c: byte)
    ensures ParseHostChar(V6Start, c) == if AddressOctet(c) then InV6 else HostDead
    ensures ParseHostChar(InV6, c) ==
      if c == ']' as int then V6End else if AddressOctet(c) then InV6 else if c == '%' as int then ZoneStart else HostDead
  {
    OctetClasses(c);
  }

  lemma ZoneChar(c: byte)
    ensures ParseHostChar(ZoneStart, c) == if ZoneOctet(c) then InZone else HostDead
    ensures ParseHostChar(InZone, c) == if c == ']' as int then V6End else if ZoneOctet(c) then InZone else HostDead
  {
    OctetClasses(c);
  }

  lemma PortChar(s: HostState, c: byte)
    requires s.PortStart? || s.InPort?
    ensures ParseHostChar(s, c) == if IsNum(c) then InPort else HostDead
  {
  }

  // ---------- one stretch of a server part ----------

  predicate HostStretch(s: HostState, text: seq<byte>, t: HostState, labels: Labels) {
    HostScan(s, text) == t && HostLabels(s, text) == labels
  }

  lemma HostStretchEmpty(s: HostState)
    ensures HostStretch(s, [], s, [])
  {
  }

  lemma HostStretchSnoc(s: HostState, text: seq<byte>, t: HostState, labels: Labels, ch: byte)
    requires HostStretch(s, text, t, labels)
    ensures var u := ParseHostChar(t, ch); HostStretch(s, text + [ch], u, labels + [HostFieldOf(u)])
  {
    hide ParseHostChar, HostFieldOf;
    assert (text + [ch])[..|text|] == text && (text + [ch])[|text|] == ch;
  }

  lemma {:induction false} HostStretchConcat(s: HostState, a: seq<byte>, t: HostState, la: Labels, b: seq<byte>, u: HostState,
                                             lb: Labels)
    requires HostStretch(s, a, t, la) && HostStretch(t, b, u, lb)
    ensures HostStretch(s, a + b, u, la + lb)
    decreases |b|
  {
    hide ParseHostChar, HostFieldOf;
    if b == [] {
      assert a + b == a && la + lb == la;
    } else {
      var init, ch := b[..|b| - 1], b[|b| - 1];
      var v, l := HostScan(t, init), HostLabels(t, init);
      HostStretchConcat(s, a, t, la, init, v, l);
      HostStretchSnoc(s, a + init, v, la + l, ch);
      assert a + init + [ch] == a + b && la + l + [HostFieldOf(u)] == la + lb;
    }
  }

  lemma HostStretchOne(s: HostState, ch: byte)
    ensures var t := ParseHostChar(s, ch); HostStretch(s, [ch], t, Fill(1, HostFieldOf(t)))
  {
    hide ParseHostChar, HostFieldOf;
    HostStretchEmpty(s);
    HostStretchSnoc(s, [], s, [], ch);
    var t := ParseHostChar(s, ch);
    assert [] + [ch] == [ch] && Fill(1, HostFieldOf(t)) == Fill(0, HostFieldOf(t)) + [HostFieldOf(t)];
  }

  lemma {:induction false} HostStay(s: HostState, text: seq<byte>)
    requires forall i :: 0 <= i < |text| ==> ParseHostChar(s, text[i]) == s
    ensures HostStretch(s, text, s, Fill(|text|, HostFieldOf(s)))
    decreases |text|
  {
    hide ParseHostChar, HostFieldOf;
    if text == [] {
      HostStretchEmpty(s);
    } else {
      var init, ch := text[..|text| - 1], text[|text| - 1];
      HostStay(s, init);
      HostStretchSnoc(s, init, s, Fill(|init|, HostFieldOf(s)), ch);
      assert init + [ch] == text;
    }
  }

  lemma {:induction false} FillAdd(a: nat, b: nat, l: Option<UrlField>)
    ensures Fill(a, l) + Fill(b, l) == Fill(a + b, l)
  {
    if b == 0 {
      assert Fill(a, l) + [] == Fill(a, l);
    } else {
      FillAdd(a, b - 1, l);
      assert Fill(a, l) + (Fill(b - 1, l) + [l]) == Fill(a, l) + Fill(b - 1, l) + [l];
    }
  }

  /** A first octet that leads to `t`, and further ones that stay there. */
  lemma HostEnter(s: HostState, text: seq<byte>, t: HostState)
    requires text != [] && ParseHostChar(s, text[0]) == t
    requires forall i :: 0 < i < |text| ==> ParseHostChar(t, text[i]) == t
    ensures HostStretch(s, text, t, Fill(|text|, HostFieldOf(t)))
  {
    hide ParseHostChar, HostFieldOf, HostStretch, Fill;
    var first, rest := [text[0]], text[1..];
    HostStretchOne(s, text[0]);
    HostStay(t, rest);
    HostStretchConcat(s, first, t, Fill(1, HostFieldOf(t)), rest, t, Fill(|rest|, HostFieldOf(t)));
    FillAdd(1, |rest|, HostFieldOf(t));
    assert first + rest == text;
  }

  // ---------- the spans so far ----------

  /** `text`, which begins at `off`, leads from `s` to `t`, and the fields in it have these spans. */
  predicate HostRead(s: HostState, off: nat, text: seq<byte>, t: HostState, m: map<UrlField, Span>) {
    HostScan(s, text) == t && SpansOf(Gap(off) + HostLabels(s, text)) == m
  }

  lemma HostReadEmpty(s: HostState, off: nat)
    ensures HostRead(s, off, [], s, map[])
  {
    hide SpansOf, Matches;
    GapMatches(off);
    assert Gap(off) + [] == Gap(off);
  }

  lemma HostReadField(s: HostState, off: nat, a: seq<byte>, t: HostState, m: map<UrlField, Span>, b: seq<byte>, u: HostState,
                      f: UrlField)
    requires HostRead(s, off, a, t, m) && HostStretch(t, b, u, Fill(|b|, Some(f))) && f !in m
    ensures HostRead(s, off, a + b, u, m + Piece(f, off + |a|, |b|))
  {
    hide SpansOf, Piece, Gap, Fill, HostScan, HostLabels;
    var g, la, lb := Gap(off), HostLabels(s, a), Fill(|b|, Some(f));
    HostStretchConcat(s, a, t, la, b, u, lb);
    SpansFill(g + la, |b|, f);
    LabelsAgain(g, la, lb);
  }

  lemma LabelsAgain(a: Labels, b: Labels, c: Labels)
    ensures a + b + c == a + (b + c)
  {
  }

  lemma HostReadMark(s: HostState, off: nat, a: seq<byte>, t: HostState, m: map<UrlField, Span>, ch: byte, u: HostState)
    requires HostRead(s, off, a, t, m) && ParseHostChar(t, ch) == u && HostFieldOf(u) == None
    ensures HostRead(s, off, a + [ch], u, m)
  {
    hide SpansOf, Gap, ParseHostChar;
    HostStretchSnoc(s, a, t, HostLabels(s, a), ch);
    SpansSnoc(Gap(off) + HostLabels(s, a), None);
    LabelsAgain(Gap(off), HostLabels(s, a), [None]);
  }

  // ---------- a whole server part ----------

  lemma ReadUser(off: nat, user: Option<seq<byte>>)
    requires user.Some? ==> All(user.value, UserOctet)
    ensures HostRead(HostBegin(user.Some?), off, UserText(user), HostStart, UserPiece(off, user))
  {
    hide ParseHostChar, HostRead, Piece, HostStretch, UserOctet;
    HostReadEmpty(HostBegin(user.Some?), off);
    if user.Some? {
      var text := user.value;
      var t := if text == [] then UserinfoStart else InUserinfo;
      if text == [] {
        HostStretchEmpty(UserinfoStart);
      } else {
        forall i | 0 <= i < |text|
          ensures ParseHostChar(UserinfoStart, text[i]) == ParseHostChar(InUserinfo, text[i]) == InUserinfo
        {
          assert UserOctet(text[i]);
          NoAt(text[i]);
          UserChar(UserinfoStart, text[i]);
          UserChar(InUserinfo, text[i]);
        }
        HostEnter(UserinfoStart, text, InUserinfo);
      }
      HostReadField(UserinfoStart, off, [], UserinfoStart, map[], text, t, Userinfo);
      UserChar(t, '@' as int);
      assert [] + text == text && map[] + Piece(Userinfo, off, |text|) == Piece(Userinfo, off, |text|);
      HostReadMark(UserinfoStart, off, text, t, Piece(Userinfo, off, |text|), '@' as int, HostStart);
    }
  }

  lemma NoAt(c: byte)
    ensures UserOctet(c) || HostOctet(c) || AddressOctet(c) || ZoneOctet(c) || IsNum(c) ==> c != '@' as int
    ensures HostOctet(c) || AddressOctet(c) || ZoneOctet(c) ==> c != '[' as int && c != ']' as int
  {
  }

  lemma NameStretch(text: seq<byte>)
    requires text != [] && All(text, HostOctet)
    ensures HostStretch(HostStart, text, InHost, Fill(|text|, Some(Host)))
  {
    hide ParseHostChar, HostStretch, HostOctet;
    forall i | 0 <= i < |text|
      ensures ParseHostChar(HostStart, text[i]) == ParseHostChar(InHost, text[i]) == InHost
    {
      assert HostOctet(text[i]);
      NoAt(text[i]);
      HostChar(text[i]);
    }
    HostEnter(HostStart, text, InHost);
  }

  lemma AddressStretch(text: seq<byte>)
    requires text != [] && All(text, AddressOctet)
    ensures HostStretch(V6Start, text, InV6, Fill(|text|, Some(Host)))
  {
    hide ParseHostChar, HostStretch, AddressOctet;
    forall i | 0 <= i < |text|
      ensures ParseHostChar(V6Start, text[i]) == ParseHostChar(InV6, text[i]) == InV6
    {
      assert AddressOctet(text[i]);
      NoAt(text[i]);
      AddressChar(text[i]);
    }
    HostEnter(V6Start, text, InV6);
  }

  lemma ZoneStretch(zone: seq<byte>)
    requires zone != [] && All(zone, ZoneOctet)
    ensures HostStretch(InV6, ['%' as int] + zone, InZone, Fill(1 + |zone|, Some(Host)))
  {
    hide ParseHostChar, HostStretch, ZoneOctet, AddressOctet, Fill;
    PercentOpens();
    HostStretchOne(InV6, '%' as int);
    forall i | 0 <= i < |zone|
      ensures ParseHostChar(ZoneStart, zone[i]) == ParseHostChar(InZone, zone[i]) == InZone
    {
      assert ZoneOctet(zone[i]);
      NoAt(zone[i]);
      ZoneChar(zone[i]);
    }
    HostEnter(ZoneStart, zone, InZone);
    HostStretchConcat(InV6, ['%' as int], ZoneStart, Fill(1, Some(Host)), zone, InZone, Fill(|zone|, Some(Host)));
    FillAdd(1, |zone|, Some(Host));
  }

  lemma PercentOpens()
    ensures ParseHostChar(InV6, '%' as int) == ZoneStart && HostFieldOf(ZoneStart) == Some(Host)
  {
  }

  function InsideEnd(zone: Option<seq<byte>>): HostState {
    if zone.Some? then InZone else InV6
  }

  lemma InsideStretch(text: seq<byte>, zone: Option<seq<byte>>)
    requires text != [] && All(text, AddressOctet) && (zone.Some? ==> zone.value != [] && All(zone.value, ZoneOctet))
    ensures HostStretch(V6Start, Inside(text, zone), InsideEnd(zone), Fill(|Inside(text, zone)|, Some(Host)))
  {
    hide ParseHostChar, HostStretch, Fill, All;
    AddressStretch(text);
    if zone.Some? {
      ZoneStretch(zone.value);
      HostStretchConcat(V6Start, text, InV6, Fill(|text|, Some(Host)), ['%' as int] + zone.value, InZone,
                        Fill(1 + |zone.value|, Some(Host)));
      FillAdd(|text|, 1 + |zone.value|, Some(Host));
    } else {
      assert text + [] == text;
    }
  }

  /** The state behind a host. */
  function HostEnd(h: HostName): HostState {
    if h.Name? then InHost else V6End
  }

  lemma ReadHost(b: HostState, off: nat, a: seq<byte>, m: map<UrlField, Span>, h: HostName)
    requires HostRead(b, off, a, HostStart, m) && Host !in m && HostNameOk(h)
    ensures HostRead(b, off, a + HostText(h), HostEnd(h), m + HostPiece(off + |a|, h))
  {
    hide ParseHostChar, HostRead, Piece, HostStretch, All, Inside;
    match h {
      case Name(text) =>
        NameStretch(text);
        HostReadField(b, off, a, HostStart, m, text, InHost, Host);
      case Address(text, zone) =>
        var inside, open, close := Inside(text, zone), ['[' as int], [']' as int];
        Brackets(zone);
        HostReadMark(b, off, a, HostStart, m, '[' as int, V6Start);
        InsideStretch(text, zone);
        HostReadField(b, off, a + open, V6Start, m, inside, InsideEnd(zone), Host);
        HostReadMark(b, off, a + open + inside, InsideEnd(zone), m + Piece(Host, off + |a| + 1, |inside|), ']' as int, V6End);
        assert a + open + inside + close == a + (open + inside + close);
    }
  }

  lemma Brackets(zone: Option<seq<byte>>)
    ensures ParseHostChar(HostStart, '[' as int) == V6Start && ParseHostChar(InsideEnd(zone), ']' as int) == V6End
  {
  }

  function PortEnd(h: HostName, port: Option<seq<byte>>): HostState {
    if port.Some? then InPort else HostEnd(h)
  }

  lemma ReadPortText(b: HostState, off: nat, a: seq<byte>, m: map<UrlField, Span>, h: HostName, port: Option<seq<byte>>)
    requires HostRead(b, off, a, HostEnd(h), m) && Port !in m
    requires port.Some? ==> port.value != [] && All(port.value, IsNum)
    ensures HostRead(b, off, a + Led(':' as int, port), PortEnd(h, port), m + PortPiece(off + |a|, port))
  {
    hide ParseHostChar, HostRead, Piece, HostStretch, IsNum;
    if port.Some? {
      var text, mark := port.value, [':' as int];
      ColonOpens(h);
      HostReadMark(b, off, a, HostEnd(h), m, ':' as int, PortStart);
      forall i | 0 <= i < |text|
        ensures ParseHostChar(PortStart, text[i]) == ParseHostChar(InPort, text[i]) == InPort
      {
        assert IsNum(text[i]);
        PortChar(PortStart, text[i]);
        PortChar(InPort, text[i]);
      }
      HostEnter(PortStart, text, InPort);
      HostReadField(b, off, a + mark, PortStart, m, text, InPort, Port);
      assert a + mark + text == a + (mark + text);
    } else {
      assert a + [] == a && m + map[] == m;
    }
  }

  lemma ColonOpens(h: HostName)
    ensures ParseHostChar(HostEnd(h), ':' as int) == PortStart
  {
  }

  /** The host automaton takes every such text to its end, and finds exactly its pieces. */
  lemma ServerRead(off: nat, s: Server)
    requires ServerOk(s)
    ensures HostRead(HostBegin(s.user.Some?), off, ServerText(s), PortEnd(s.host, s.port), ServerPieces(off, s))
    ensures HostDone(PortEnd(s.host, s.port))
  {
    hide HostRead, Piece, All, HostText, Led, UserText;
    var b, a := HostBegin(s.user.Some?), UserText(s.user);
    ReadUser(off, s.user);
    UserKeys(off, s.user);
    ReadHost(b, off, a, UserPiece(off, s.user), s.host);
    HostKeys(off + |a|, s.host);
    ReadPortText(b, off, a + HostText(s.host), UserPiece(off, s.user) + HostPiece(off + |a|, s.host), s.host, s.port);
  }

  lemma UserKeys(off: nat, user: Option<seq<byte>>)
    ensures forall f :: f in UserPiece(off, user) ==> f == Userinfo
  {
  }

  lemma HostKeys(off: nat, h: HostName)
    ensures forall f :: f in HostPiece(off, h) ==> f == Host
  {
  }

  // ---------- nothing else is taken ----------

  /** A server part as the host automaton has divided it so far. */
  datatype HostDraft = HostDraft(user: seq<byte>, at: bool, open: bool, host: seq<byte>, zone: Option<seq<byte>>, close: bool,
                                 port: Option<seq<byte>>)

  const NO_HOST: HostDraft := HostDraft([], false, false, [], None, false, None)

  function Mark(there: bool, ch: byte): seq<byte> {
    if there then [ch] else []
  }

  function HostDraftText(d: HostDraft): seq<byte> {
    d.user + Mark(d.at, '@' as int) + (Mark(d.open, '[' as int) + Inside(d.host, d.zone) + Mark(d.close, ']' as int))
    + Led(':' as int, d.port)
  }

  /** The draft with one more octet, which has led to state `t`. */
  function HostExtend(d: HostDraft, t: HostState, ch: byte): HostDraft {
    match t
    case InUserinfo => d.(user := d.user + [ch])
    case HostStart => d.(at := true)
    case V6Start => d.(open := true)
    case InHost => d.(host := d.host + [ch])
    case InV6 => d.(host := d.host + [ch])
    case ZoneStart => d.(zone := Longer(d.zone, ch))
    case InZone => d.(zone := Longer(d.zone, ch))
    case V6End => d.(close := true)
    case _ => d.(port := Longer(d.port, ch))
  }

  /** What has been read of the host. */
  predicate NoHostYet(d: HostDraft) {
    !d.open && d.host == [] && d.zone.None? && !d.close
  }

  predicate Named(d: HostDraft) {
    !d.open && !d.close && d.zone.None? && d.host != [] && All(d.host, HostOctet)
  }

  predicate Opened(d: HostDraft) {
    d.open && !d.close && All(d.host, AddressOctet)
  }

  predicate Bracketed(d: HostDraft) {
    && d.open && d.close && d.host != [] && All(d.host, AddressOctet)
    && (d.zone.Some? ==> d.zone.value != [] && All(d.zone.value, ZoneOctet))
  }

  predicate HostPartFits(d: HostDraft, t: HostState) {
    match t
    case HostStart => NoHostYet(d)
    case V6Start => Opened(d) && d.host == [] && d.zone.None?
    case InHost => Named(d)
    case InV6 => Opened(d) && d.host != [] && d.zone.None?
    case ZoneStart => Opened(d) && d.host != [] && d.zone == Some([])
    case InZone => Opened(d) && d.host != [] && d.zone.Some? && d.zone.value != [] && All(d.zone.value, ZoneOctet)
    case V6End => Bracketed(d)
    case PortStart => Named(d) || Bracketed(d)
    case InPort => Named(d) || Bracketed(d)
    case _ => false
  }

  predicate PortFits(d: HostDraft, t: HostState) {
    if t.PortStart? then d.port == Some([])
    else if t.InPort? then d.port.Some? && d.port.value != [] && All(d.port.value, IsNum)
    else d.port.None?
  }

  predicate InUser(t: HostState) {
    t.UserinfoStart? || t.InUserinfo?
  }

  predicate HostFits(d: HostDraft, t: HostState, foundAt: bool) {
    && All(d.user, UserOctet)
    && if InUser(t) then foundAt && !d.at && NoHostYet(d) && d.port.None?
       else d.at == foundAt && (!foundAt ==> d.user == []) && HostPartFits(d, t) && PortFits(d, t)
  }

  lemma HostExtendFits(d: HostDraft, s: HostState, ch: byte, foundAt: bool)
    requires HostFits(d, s, foundAt) && ParseHostChar(s, ch) != HostDead
    ensures var t := ParseHostChar(s, ch); HostFits(HostExtend(d, t, ch), t, foundAt)
  {
    hide ParseHostChar, UserOctet, HostOctet, AddressOctet, ZoneOctet, IsNum;
    if InUser(s) {
      UserChar(s, ch);
    } else if s.HostStart? || s.InHost? || s.V6End? {
      HostChar(ch);
    } else if s.V6Start? || s.InV6? {
      AddressChar(ch);
    } else if s.ZoneStart? || s.InZone? {
      ZoneChar(ch);
    } else {
      PortChar(s, ch);
    }
  }

  // what one more octet does to the text

  lemma HostTextGrows(d: HostDraft, s: HostState, ch: byte, foundAt: bool)
    requires HostFits(d, s, foundAt) && ParseHostChar(s, ch) != HostDead
    ensures var t := ParseHostChar(s, ch); HostDraftText(HostExtend(d, t, ch)) == HostDraftText(d) + [ch]
  {
    hide ParseHostChar, All, HostExtend, HostDraftText, HostPartFits, Named, Opened, Bracketed, NoHostYet;
    if InUser(s) {
      UserGrows(d, s, ch, foundAt);
    } else if s.HostStart? || s.InHost? || s.V6End? {
      NameGrows(d, s, ch, foundAt);
    } else if s.V6Start? || s.InV6? {
      AddressGrows(d, s, ch, foundAt);
    } else if s.ZoneStart? || s.InZone? {
      ZoneGrows(d, s, ch, foundAt);
    } else {
      DigitGrows(d, s, ch, foundAt);
    }
  }

  lemma DigitGrows(d: HostDraft, s: HostState, ch: byte, foundAt: bool)
    requires HostFits(d, s, foundAt) && !InUser(s) && !s.HostStart? && !s.InHost? && !s.V6End?
    requires !s.V6Start? && !s.InV6? && !s.ZoneStart? && !s.InZone? && ParseHostChar(s, ch) != HostDead
    ensures var t := ParseHostChar(s, ch); HostDraftText(HostExtend(d, t, ch)) == HostDraftText(d) + [ch]
  {
    hide ParseHostChar, All, HostDraftText;
    PortChar(s, ch);
    PortGrows(d, ch);
  }

  lemma UserGrows(d: HostDraft, s: HostState, ch: byte, foundAt: bool)
    requires HostFits(d, s, foundAt) && InUser(s) && ParseHostChar(s, ch) != HostDead
    ensures var t := ParseHostChar(s, ch); HostDraftText(HostExtend(d, t, ch)) == HostDraftText(d) + [ch]
  {
    hide ParseHostChar, All, UserOctet;
    UserChar(s, ch);
  }

  lemma PortGrows(d: HostDraft, ch: byte)
    requires d.port.None? ==> ch == ':' as int
    ensures HostDraftText(d.(port := Longer(d.port, ch))) == HostDraftText(d) + [ch]
  {
    hide Led, Longer, Inside, Mark;
    LedGrows(d.port, ':' as int, ch);
    var front := d.user + Mark(d.at, '@' as int) + (Mark(d.open, '[' as int) + Inside(d.host, d.zone) + Mark(d.close, ']' as int));
    TailGrows(front, Led(':' as int, d.port), ch);
  }

  /** The host grows while there is no port. */
  lemma MiddleGrows(d: HostDraft, e: HostDraft, ch: byte)
    requires d.port.None? && e.port.None? && e.user == d.user && e.at == d.at
    requires Mark(e.open, '[' as int) + Inside(e.host, e.zone) + Mark(e.close, ']' as int)
          == Mark(d.open, '[' as int) + Inside(d.host, d.zone) + Mark(d.close, ']' as int) + [ch]
    ensures HostDraftText(e) == HostDraftText(d) + [ch]
  {
    hide Inside, Mark;
    NoneLed(':' as int);
    var front := d.user + Mark(d.at, '@' as int);
    var middle := Mark(d.open, '[' as int) + Inside(d.host, d.zone) + Mark(d.close, ']' as int);
    TailGrows(front, middle, ch);
    assert front + middle + [] == front + middle && front + (middle + [ch]) + [] == front + (middle + [ch]);
  }

  lemma NameGrows(d: HostDraft, s: HostState, ch: byte, foundAt: bool)
    requires HostFits(d, s, foundAt) && (s.HostStart? || s.InHost? || s.V6End?) && ParseHostChar(s, ch) != HostDead
    ensures var t := ParseHostChar(s, ch); HostDraftText(HostExtend(d, t, ch)) == HostDraftText(d) + [ch]
  {
    hide ParseHostChar, All, HostOctet, HostDraftText;
    HostChar(ch);
    var t := ParseHostChar(s, ch);
    if t.PortStart? {
      PortGrows(d, ch);
    } else {
      MiddleGrows(d, HostExtend(d, t, ch), ch);
    }
  }

  lemma AddressGrows(d: HostDraft, s: HostState, ch: byte, foundAt: bool)
    requires HostFits(d, s, foundAt) && (s.V6Start? || s.InV6?) && ParseHostChar(s, ch) != HostDead
    ensures var t := ParseHostChar(s, ch); HostDraftText(HostExtend(d, t, ch)) == HostDraftText(d) + [ch]
  {
    hide ParseHostChar, All, AddressOctet, HostDraftText;
    AddressChar(ch);
    var t := ParseHostChar(s, ch);
    MiddleGrows(d, HostExtend(d, t, ch), ch);
  }

  lemma ZoneGrows(d: HostDraft, s: HostState, ch: byte, foundAt: bool)
    requires HostFits(d, s, foundAt) && (s.ZoneStart? || s.InZone?) && ParseHostChar(s, ch) != HostDead
    ensures var t := ParseHostChar(s, ch); HostDraftText(HostExtend(d, t, ch)) == HostDraftText(d) + [ch]
  {
    hide ParseHostChar, All, ZoneOctet, HostDraftText;
    ZoneChar(ch);
    var t := ParseHostChar(s, ch);
    MiddleGrows(d, HostExtend(d, t, ch), ch);
  }

  /** Every text that the host automaton has not refused is one of its drafts. */
  lemma {:induction false} HostDrafted(text: seq<byte>, foundAt: bool) returns (d: HostDraft)
    requires HostScan(HostBegin(foundAt), text) != HostDead
    ensures HostFits(d, HostScan(HostBegin(foundAt), text), foundAt) && HostDraftText(d) == text
    decreases |text|
  {
    hide ParseHostChar, HostFits, HostDraftText, HostExtend;
    if text == [] {
      d := NO_HOST;
      NoHostFits(foundAt);
    } else {
      var init, ch := text[..|text| - 1], text[|text| - 1];
      DeadEnd(ch);
      var e := HostDrafted(init, foundAt);
      var s := HostScan(HostBegin(foundAt), init);
      HostTextGrows(e, s, ch, foundAt);
      HostExtendFits(e, s, ch, foundAt);
      d := HostExtend(e, ParseHostChar(s, ch), ch);
    }
  }

  lemma NoHostFits(foundAt: bool)
    ensures HostFits(NO_HOST, HostBegin(foundAt), foundAt) && HostDraftText(NO_HOST) == []
  {
  }

  /** A text that the host automaton takes to its end is one of those above. */
  lemma ServerFound(text: seq<byte>, foundAt: bool) returns (s: Server)
    requires HostDone(HostScan(HostBegin(foundAt), text))
    ensures ServerOk(s) && ServerText(s) == text && (s.user.Some? <==> foundAt)
  {
    hide ParseHostChar, HostFits, HostDraftText, HostScan;
    var d := HostDrafted(text, foundAt);
    s := Server(if d.at then Some(d.user) else None, if d.open then Address(d.host, d.zone) else Name(d.host), d.port);
    HostDraftIsServer(d, HostScan(HostBegin(foundAt), text), foundAt);
  }

  lemma HostDraftIsServer(d: HostDraft, t: HostState, foundAt: bool)
    requires HostFits(d, t, foundAt) && HostDone(t)
    ensures var s := Server(if d.at then Some(d.user) else None, if d.open then Address(d.host, d.zone) else Name(d.host), d.port);
      ServerOk(s) && ServerText(s) == HostDraftText(d) && (s.user.Some? <==> foundAt)
  {
    hide UserOctet, HostOctet, AddressOctet, ZoneOctet, IsNum;
    assert [] + (d.host + []) + [] == d.host;
  }
}
