/** A whole URL, put together from its parts: what http_parser_parse_url accepts, and where it finds the parts. */
module UrlText {
  import opened Bytes
  import opened HttpTypes
  import opened HttpAct
  import opened HttpLength
  import opened UrlAutomaton
  import opened UrlGrammar
  import opened UrlServer

  datatype UrlParts = UrlParts(scheme: Option<seq<byte>>, server: Option<Server>, path: seq<byte>, query: Option<seq<byte>>,
                               fragment: Option<seq<byte>>)

  function ServerPart(u: UrlParts): seq<byte> {
    if u.server.Some? then ServerText(u.server.value) else []
  }

  /** scheme "://" user '@' host ':' port path '?' query '#' fragment, each part with its marks only where it is present. */
  function TextOf(u: UrlParts): seq<byte> {
    Front(u.scheme) + ServerPart(u) + u.path + Led('?' as int, u.query) + Led('#' as int, u.fragment)
  }

  /** A scheme is followed by a server part; without it, only CONNECT has one, and anything else begins with its path. */
  predicate IsUrl(u: UrlParts, isConnect: bool) {
    && (u.scheme.Some? ==> !isConnect && u.scheme.value != [] && All(u.scheme.value, IsLetter) && u.server.Some?)
    && (u.scheme.None? && !isConnect ==> u.server.None? && u.path != [])
    && (u.server.Some? ==> ServerOk(u.server.value))
    && EndOk(u.path, u.query, u.fragment, u.scheme.None? && !isConnect)
    && (u.server.Some? || u.path != [] || u.query.Some?)
  }

  /** The fields, each with its place in the text. */
  function Pieces(u: UrlParts): map<UrlField, Span> {
    SchemePiece(u.scheme)
    + (if u.server.Some? then ServerPieces(|Front(u.scheme)|, u.server.value) else map[])
    + TailPieces(|Front(u.scheme)| + |ServerPart(u)|, u.path, u.query, u.fragment)
  }

  /** The value of the port, or 0. */
  function PortOf(u: UrlParts): nat
    requires u.server.Some? ==> ServerOk(u.server.value)
  {
    if u.server.Some? && u.server.value.port.Some? then DecimalFrom(0, u.server.value.port.value) else 0
  }

  /** Nothing but a host and a port has an octet of its own. */
  predicate HostAndPort(u: UrlParts) {
    && u.server.Some? && u.server.value.port.Some? && (u.server.value.user.Some? ==> u.server.value.user.value == [])
    && u.path == [] && (u.query.Some? ==> u.query.value == [])
    && (u.fragment.Some? ==> Hashes(u.fragment.value) == |u.fragment.value|)
  }

  /** What a URL needs beside its form. */
  predicate Admissible(u: UrlParts, isConnect: bool)
    requires u.server.Some? ==> ServerOk(u.server.value)
  {
    PortOf(u) <= 0xffff && (isConnect ==> HostAndPort(u))
  }

  predicate IsAccepted(u: UrlParts, isConnect: bool) {
    IsUrl(u, isConnect) && Admissible(u, isConnect)
  }

  // ---------- the server part as a part of the URL ----------

  function OuterOf(u: UrlParts): Outer {
    Outer(u.scheme, ServerPart(u), u.path, u.query, u.fragment)
  }

  /** Every octet is one that a server part may hold, and is not '@'. */
  predicate Atless(s: seq<byte>) {
    forall i :: 0 <= i < |s| ==> ServerOctet(s[i]) && s[i] != '@' as int
  }

  lemma AtlessAdd(a: seq<byte>, b: seq<byte>)
    requires Atless(a) && Atless(b)
    ensures Atless(a + b)
  {
    hide ServerOctet;
  }

  lemma AtlessAll(s: seq<byte>)
    ensures All(s, UserOctet) || All(s, HostOctet) || All(s, AddressOctet) || All(s, ZoneOctet) || All(s, IsNum) ==> Atless(s)
  {
    forall i | 0 <= i < |s|
      ensures UserOctet(s[i]) || HostOctet(s[i]) || AddressOctet(s[i]) || ZoneOctet(s[i]) || IsNum(s[i]) ==>
        ServerOctet(s[i]) && s[i] != '@' as int
    {
      ServerClasses(s[i]);
    }
  }

  lemma ServerClasses(c: byte)
    ensures UserOctet(c) || HostOctet(c) || AddressOctet(c) || ZoneOctet(c) || IsNum(c) ==> ServerOctet(c) && c != '@' as int
  {
  }

  lemma AtlessMarks()
    ensures Atless(['%' as int]) && Atless(['[' as int]) && Atless([']' as int]) && Atless([':' as int]) && Atless([])
  {
  }

  lemma HostAtless(h: HostName)
    requires HostNameOk(h)
    ensures Atless(HostText(h)) && HostText(h) != []
  {
    hide Atless, All;
    AtlessMarks();
    AtlessAll(h.text);
    match h {
      case Name(text) =>
      case Address(text, zone) =>
        if zone.Some? {
          AtlessAll(zone.value);
          AtlessAdd(['%' as int], zone.value);
        }
        AtlessAdd(text, Led('%' as int, zone));
        AtlessAdd(['[' as int], Inside(text, zone));
        AtlessAdd(['[' as int] + Inside(text, zone), [']' as int]);
    }
  }

  /** The host and the port hold no '@', so that the only one is that behind the user information. */
  lemma ServerIsText(s: Server)
    requires ServerOk(s)
    ensures ServerText(s) != [] && IsServerText(ServerText(s)) && ('@' as int in ServerText(s) <==> s.user.Some?)
  {
    hide Atless, All, HostText, HostNameOk, IsServerText;
    HostAtless(s.host);
    AtlessMarks();
    if s.port.Some? {
      AtlessAll(s.port.value);
      AtlessAdd([':' as int], s.port.value);
    }
    var behind := HostText(s.host) + Led(':' as int, s.port);
    AtlessAdd(HostText(s.host), Led(':' as int, s.port));
    assert ServerText(s) == UserText(s.user) + behind;
    if s.user.Some? {
      AtlessAll(s.user.value);
      OneAt(s.user.value, behind);
    } else {
      NoAtAtAll(behind);
      assert [] + behind == behind;
    }
  }

  lemma NoAtAtAll(s: seq<byte>)
    requires Atless(s)
    ensures IsServerText(s) && '@' as int !in s
  {
    hide ServerOctet;
  }

  lemma OneAt(a: seq<byte>, b: seq<byte>)
    requires Atless(a) && Atless(b)
    ensures IsServerText(a + ['@' as int] + b) && '@' as int in a + ['@' as int] + b
  {
    hide ServerOctet;
    AtIsServer();
    var s := a + ['@' as int] + b;
    assert s[|a|] == '@' as int;
    forall i | 0 <= i < |s| ensures ServerOctet(s[i]) && (s[i] == '@' as int ==> i == |a|) {
      if i > |a| {
        assert s[i] == b[i - |a| - 1];
      }
    }
  }

  lemma OuterFits(u: UrlParts, isConnect: bool)
    requires IsUrl(u, isConnect)
    ensures OuterOk(OuterOf(u), isConnect) && TextOf(u) == OuterText(OuterOf(u))
    ensures ServerPart(u) != [] <==> u.server.Some?
    ensures '@' as int in ServerPart(u) <==> u.server.Some? && u.server.value.user.Some?
  {
    hide All, EndOk, ServerText, ServerOk, IsServerText;
    if u.server.Some? {
      ServerIsText(u.server.value);
    } else {
      NothingServed();
    }
  }

  lemma NothingServed()
    ensures IsServerText([])
  {
  }

  // ---------- the round trip ----------

  /** The server's fields in the place of the server part. */
  lemma ServerReplaced(a: map<UrlField, Span>, h: Span, c: map<UrlField, Span>, m: map<UrlField, Span>)
    requires Host !in a && Host !in c && forall f :: f in m ==> f !in c
    ensures (a + map[Host := h] + c) - {Host} + m == a + m + c
  {
  }

  lemma ServerKeys(off: nat, s: Server)
    ensures forall f :: f in ServerPieces(off, s) ==> IsServerField(f)
  {
  }

  lemma TailKeys(off: nat, path: seq<byte>, query: Option<seq<byte>>, fragment: Option<seq<byte>>)
    ensures forall f :: f in TailPieces(off, path, query, fragment) ==> f == Path || f == Query || f == Fragment
  {
    hide Hashes;
  }

  lemma SchemeKeys(scheme: Option<seq<byte>>)
    ensures forall f :: f in SchemePiece(scheme) ==> f == Schema
  {
  }

  /** Where the server part lies. */
  lemma OuterHost(u: UrlParts)
    requires ServerPart(u) != [] <==> u.server.Some?
    ensures var o, at := OuterPieces(OuterOf(u)), |Front(u.scheme)|;
      && (Host in o <==> u.server.Some?) && (Schema in o <==> u.scheme.Some? && u.scheme.value != [])
      && (u.server.Some? ==>
            && o[Host] == Span(at, |ServerPart(u)|)
            && (o - {Host}) + ServerPieces(at, u.server.value) == Pieces(u))
      && (u.server.None? ==> o == Pieces(u))
  {
    hide TailPieces, ServerPieces, ServerPart;
    var at := |Front(u.scheme)|;
    var tail := TailPieces(at + |ServerPart(u)|, u.path, u.query, u.fragment);
    TailKeys(at + |ServerPart(u)|, u.path, u.query, u.fragment);
    SchemeKeys(u.scheme);
    if u.server.Some? {
      ServerKeys(at, u.server.value);
      ServerReplaced(SchemePiece(u.scheme), Span(at, |ServerPart(u)|), tail, ServerPieces(at, u.server.value));
    } else {
      assert SchemePiece(u.scheme) + map[] == SchemePiece(u.scheme);
    }
  }

  lemma ServerSlice(u: UrlParts)
    ensures var at := |Front(u.scheme)|;
      at + |ServerPart(u)| <= |TextOf(u)| && TextOf(u)[at..at + |ServerPart(u)|] == ServerPart(u)
  {
    hide ServerPart, Front, Led;
  }

  /** The round trip: the text of a URL is split into exactly the parts that it was put together from. */
  lemma TextSplits(u: UrlParts, isConnect: bool)
    requires IsUrl(u, isConnect)
    ensures Splits(TextOf(u), isConnect) && AllSpans(TextOf(u), isConnect) == Pieces(u)
  {
    hide Scan, SpansOf, FoundAt, HostScan, TextOf, OuterText, OuterPieces, OuterOk, Pieces, ServerOk, ServerPart, ServerPieces,
         UrlLabels, HostLabels, All, EndOk, HostDone, Gap;
    OuterFits(u, isConnect);
    OuterRead(OuterOf(u), isConnect);
    OuterHost(u);
    TextNonempty(u, isConnect);
    var buf, at := TextOf(u), |Front(u.scheme)|;
    if u.server.Some? {
      ServerSlice(u);
      ServerRead(at, u.server.value);
      assert Text(buf, Span(at, |ServerPart(u)|)) == ServerText(u.server.value) by {
        ServerPartIs(u);
      }
    }
  }

  lemma ServerPartIs(u: UrlParts)
    requires u.server.Some?
    ensures ServerPart(u) == ServerText(u.server.value)
  {
  }

  lemma TextNonempty(u: UrlParts, isConnect: bool)
    requires IsUrl(u, isConnect) && (ServerPart(u) != [] <==> u.server.Some?)
    ensures TextOf(u) != [] && (u.scheme.Some? ==> u.server.Some?) && (u.server.Some? ==> ServerOk(u.server.value))
  {
    hide ServerPart, ServerOk, All, EndOk;
  }

  // ---------- nothing else is accepted ----------

  /** Every text that is split into fields is the text of a URL. */
  lemma SplitsFound(buf: seq<byte>, isConnect: bool) returns (u: UrlParts)
    requires Splits(buf, isConnect)
    ensures IsUrl(u, isConnect) && TextOf(u) == buf
  {
    hide Scan, SpansOf, FoundAt, HostScan, OuterText, OuterPieces, OuterOk, UrlLabels, HostLabels, HostDone, InUrlPrefix, IsUrl,
         Pieces, TextOf;
    PastTheScheme(Start(isConnect), buf, isConnect);
    var o := OuterFound(buf, isConnect);
    OuterRead(o, isConnect);
    var server: Option<Server> := None;
    OuterServes(o, isConnect);
    if o.server != [] {
      var s := ServerFound(o.server, '@' as int in o.server);
      server := Some(s);
    }
    u := UrlParts(o.scheme, server, o.path, o.query, o.fragment);
    OuterIsUrl(o, server, isConnect);
  }

  /** The server part in the pieces of a URL. */
  lemma OuterServes(o: Outer, isConnect: bool)
    requires OuterOk(o, isConnect)
    ensures var m, at := OuterPieces(o), |Front(o.scheme)|;
      && (Host in m <==> o.server != []) && (Schema in m <==> o.scheme.Some?)
      && (o.server != [] ==> m[Host] == Span(at, |o.server|) && Text(OuterText(o), m[Host]) == o.server)
  {
    hide TailPieces, All, EndOk, IsServerText;
    TailKeys(|Front(o.scheme)| + |o.server|, o.path, o.query, o.fragment);
    OuterSlice(o);
  }

  lemma OuterSlice(o: Outer)
    ensures var at := |Front(o.scheme)|;
      at + |o.server| <= |OuterText(o)| && OuterText(o)[at..at + |o.server|] == o.server
  {
    hide Front, Led;
  }

  lemma OuterIsUrl(o: Outer, server: Option<Server>, isConnect: bool)
    requires OuterOk(o, isConnect) && (o.scheme.Some? ==> o.server != [])
    requires if o.server == [] then server.None? else server.Some? && ServerOk(server.value) && ServerText(server.value) == o.server
    ensures var u := UrlParts(o.scheme, server, o.path, o.query, o.fragment); IsUrl(u, isConnect) && TextOf(u) == OuterText(o)
  {
    hide All, EndOk, ServerOk, ServerText, IsServerText;
  }

  /** The octets of the port lie where its piece says. */
  lemma PortSlice(u: UrlParts)
    requires u.server.Some? && u.server.value.port.Some? && u.server.value.port.value != []
    ensures Port in Pieces(u) && Text(TextOf(u), Pieces(u)[Port]) == u.server.value.port.value
  {
    hide Front, Led, HostText, UserText, TailPieces, ServerPieces, Pieces;
    var s, mark := u.server.value, ':' as int;
    var front := Front(u.scheme) + UserText(s.user) + HostText(s.host);
    var behind := u.path + Led('?' as int, u.query) + Led('#' as int, u.fragment);
    PortPlaced(u, |front|);
    LedIs(mark, s.port.value);
    Regroup(Front(u.scheme), UserText(s.user), HostText(s.host), Led(mark, s.port), u.path, Led('?' as int, u.query),
            Led('#' as int, u.fragment));
    SliceBehind(front, mark, s.port.value, behind);
  }

  lemma Regroup(a: seq<byte>, b: seq<byte>, c: seq<byte>, d: seq<byte>, e: seq<byte>, f: seq<byte>, g: seq<byte>)
    ensures a + (b + c + d) + e + f + g == (a + b + c) + d + (e + f + g)
  {
  }

  lemma SliceBehind(a: seq<byte>, mark: byte, b: seq<byte>, c: seq<byte>)
    ensures var text := a + ([mark] + b) + c;
      |a| + 1 + |b| <= |text| && text[|a| + 1..|a| + 1 + |b|] == b
  {
  }

  lemma LedIs(mark: byte, part: seq<byte>)
    ensures Led(mark, Some(part)) == [mark] + part
  {
  }

  lemma PortPlaced(u: UrlParts, off: nat)
    requires u.server.Some? && u.server.value.port.Some? && u.server.value.port.value != []
    requires off == |Front(u.scheme)| + |UserText(u.server.value.user)| + |HostText(u.server.value.host)|
    ensures Port in Pieces(u) && Pieces(u)[Port] == Span(off + 1, |u.server.value.port.value|)
  {
    hide TailPieces, SchemePiece, UserPiece, HostPiece, HostText, UserText, Front, Led;
    TailKeys(|Front(u.scheme)| + |ServerPart(u)|, u.path, u.query, u.fragment);
  }

  lemma NoPort(u: UrlParts)
    requires u.server.None? || u.server.value.port.None?
    ensures Port !in Pieces(u)
  {
    hide TailPieces, HostText, UserText, Front, Led, Inside;
    TailKeys(|Front(u.scheme)| + |ServerPart(u)|, u.path, u.query, u.fragment);
  }

  /** The value of the port is that of its octets. */
  lemma PortValue(u: UrlParts, isConnect: bool)
    requires IsUrl(u, isConnect)
    ensures PortOf(u) == if Port in Pieces(u) then Decimal(Text(TextOf(u), Pieces(u)[Port])) else 0
  {
    hide Pieces, TextOf, DecimalFrom, EndOk, HostNameOk, Text, IsNum;
    if u.server.Some? && u.server.value.port.Some? {
      PortSlice(u);
      DigitsDecimal(u.server.value.port.value);
    } else {
      NoPort(u);
    }
  }

  lemma DigitsDecimal(s: seq<byte>)
    requires All(s, IsNum)
    ensures Decimal(s) == DecimalFrom(0, s)
  {
    hide DecimalFrom;
  }

  lemma ServerHas(off: nat, s: Server)
    requires ServerOk(s)
    ensures var m := ServerPieces(off, s);
      && Host in m && (Port in m <==> s.port.Some?) && (Userinfo in m <==> s.user.Some? && s.user.value != [])
      && forall f :: f in m ==> IsServerField(f)
  {
    hide All;
  }

  lemma TailHas(off: nat, path: seq<byte>, query: Option<seq<byte>>, fragment: Option<seq<byte>>)
    ensures var m := TailPieces(off, path, query, fragment);
      && (Path in m <==> path != []) && (Query in m <==> query.Some? && query.value != [])
      && (Fragment in m <==> fragment.Some? && Hashes(fragment.value) < |fragment.value|)
      && forall f :: f in m ==> f == Path || f == Query || f == Fragment
  {
    hide Hashes;
  }

  /** CONNECT takes exactly the URLs in which nothing but a host and a port has an octet of its own. */
  lemma ConnectKeys(u: UrlParts)
    requires IsUrl(u, true)
    ensures Pieces(u).Keys == {Host, Port} <==> HostAndPort(u)
  {
    hide All, ServerOk, ServerPieces, TailPieces, ServerPart, Hashes, EndOk;
    TailHas(|Front(u.scheme)| + |ServerPart(u)|, u.path, u.query, u.fragment);
    if u.server.Some? {
      ServerHas(|Front(u.scheme)|, u.server.value);
    }
    HashesFit(u.fragment);
    var m := Pieces(u);
    assert forall f: UrlField :: f in m.Keys <==> f in m;
    if HostAndPort(u) {
      assert forall f :: f in m <==> f == Host || f == Port;
    }
  }

  lemma HashesFit(part: Option<seq<byte>>)
    ensures part.Some? ==> Hashes(part.value) <= |part.value|
  {
  }

  lemma AdmissibleExact(u: UrlParts, isConnect: bool)
    requires IsUrl(u, isConnect)
    ensures Accepts(TextOf(u), isConnect) <==> Admissible(u, isConnect)
  {
    hide Splits, AllSpans, TextOf, Pieces, PortOf, HostAndPort, Decimal, Text, IsUrl;
    TextSplits(u, isConnect);
    PortValue(u, isConnect);
    UrlServed(u, isConnect);
    if isConnect {
      ConnectKeys(u);
    }
  }

  lemma UrlServed(u: UrlParts, isConnect: bool)
    requires IsUrl(u, isConnect)
    ensures u.server.Some? ==> ServerOk(u.server.value)
  {
    hide ServerOk, All, EndOk;
  }

  /** http_parser_parse_url accepts exactly the texts of URLs whose port is below 65536, and for CONNECT those of a host
      with a port. */
  lemma AcceptsExact(buf: seq<byte>, isConnect: bool)
    ensures Accepts(buf, isConnect) <==>
      exists u: UrlParts :: IsAccepted(u, isConnect) && TextOf(u) == buf
  {
    hide Accepts, TextOf, Admissible, IsUrl;
    forall u: UrlParts | IsAccepted(u, isConnect) && TextOf(u) == buf ensures Accepts(buf, isConnect) {
      AdmissibleExact(u, isConnect);
    }
    if Accepts(buf, isConnect) {
      AcceptedSplits(buf, isConnect);
      var u := SplitsFound(buf, isConnect);
      AdmissibleExact(u, isConnect);
    }
  }

  lemma AcceptedSplits(buf: seq<byte>, isConnect: bool)
    requires Accepts(buf, isConnect)
    ensures Splits(buf, isConnect)
  {
    hide Splits, AllSpans;
  }

  /** Every URL is a request target. */
  lemma UrlIsTarget(u: UrlParts, isConnect: bool)
    requires IsUrl(u, isConnect)
    ensures IsTarget(TextOf(u), isConnect)
  {
    hide IsUrl, OuterOk, OuterText, TextOf;
    OuterFits(u, isConnect);
    assert OuterText(OuterOf(u)) == TextOf(u);
  }

  /** A path with a query is a URL and a request target, and these are its fields. */
  lemma OriginForm(path: seq<byte>, query: seq<byte>)
    requires path != [] && path[0] == '/' as int && All(path, PathOctet) && query != [] && All(query, QueryOctet)
    ensures var t := path + ['?' as int] + query;
      && Accepts(t, false) && IsTarget(t, false)
      && AllSpans(t, false) == map[Path := Span(0, |path|), Query := Span(|path| + 1, |query|)]
  {
    hide PathOctet, QueryOctet, Accepts, AllSpans, TextOf, IsTarget;
    var u := UrlParts(None, None, path, Some(query), None);
    OriginText(path, query);
    AdmissibleExact(u, false);
    TextSplits(u, false);
    UrlIsTarget(u, false);
  }

  lemma OriginText(path: seq<byte>, query: seq<byte>)
    ensures TextOf(UrlParts(None, None, path, Some(query), None)) == path + ['?' as int] + query
  {
    assert [] + [] + path + (['?' as int] + query) + [] == path + ['?' as int] + query;
  }
}
