/** URLs as texts: what http_parser_parse_url and the request line of http_parser_execute accept, and which pieces of an
    accepted text are its fields. */
module UrlGrammar {
  import opened Bytes
  import opened HttpTypes
  import opened HttpAct
  import opened HttpLength
  import opened UrlAutomaton

  // ---------- octets ----------

  predicate IsLetter(c: byte) {
    'A' as int <= c <= 'Z' as int || 'a' as int <= c <= 'z' as int
  }

  /** The marks of a user information beside letters and digits. */
  predicate IsUserMark(c: byte) {
    (c as char) in "-_.!~*'()%;:&=+$,"
  }

  predicate UserOctet(c: byte) {
    IsLetter(c) || IsNum(c) || IsUserMark(c)
  }

  predicate HostOctet(c: byte) {
    IsLetter(c) || IsNum(c) || (c as char) in ".-"
  }

  predicate AddressOctet(c: byte) {
    IsNum(c) || 'A' as int <= c <= 'F' as int || 'a' as int <= c <= 'f' as int || (c as char) in ":."
  }

  predicate ZoneOctet(c: byte) {
    IsLetter(c) || IsNum(c) || (c as char) in "%.-_~"
  }

  /** What the server part as a whole may hold. */
  predicate ServerOctet(c: byte) {
    UserOctet(c) || (c as char) in "@[]"
  }

  /** The octets of a path: the printable ones but '#' and '?'. Spaces, control octets, DEL and anything above it are
      refused everywhere in a URL. */
  predicate PathOctet(c: byte) {
    33 <= c <= 126 && c != '#' as int && c != '?' as int
  }

  predicate QueryOctet(c: byte) {
    PathOctet(c) || c == '?' as int
  }

  predicate FragmentOctet(c: byte) {
    PathOctet(c) || c == '?' as int || c == '#' as int
  }

  predicate All(s: seq<byte>, p: byte -> bool) {
    forall i :: 0 <= i < |s| ==> p(s[i])
  }

  // ---------- the parts ----------

  /** A URL by its parts, the server part as it is written. */
  datatype Outer = Outer(scheme: Option<seq<byte>>, server: seq<byte>, path: seq<byte>, query: Option<seq<byte>>,
                         fragment: Option<seq<byte>>)

  const SLASHES: seq<byte> := [':' as int, '/' as int, '/' as int]

  function Front(scheme: Option<seq<byte>>): seq<byte> {
    if scheme.Some? then scheme.value + SLASHES else []
  }

  /** A part behind its mark. */
  function Led(mark: byte, part: Option<seq<byte>>): seq<byte> {
    if part.Some? then [mark] + part.value else []
  }

  function OuterText(o: Outer): seq<byte> {
    Front(o.scheme) + o.server + o.path + Led('?' as int, o.query) + Led('#' as int, o.fragment)
  }

  /** No two '@' stand side by side. */
  predicate IsServerText(s: seq<byte>) {
    All(s, ServerOctet) && forall i :: 0 < i < |s| ==> s[i] != '@' as int || s[i - 1] != '@' as int
  }

  predicate IsPathText(s: seq<byte>) {
    forall i :: 0 < i < |s| ==> PathOctet(s[i])
  }

  /** Path, query and fragment. The path begins with a slash, or with a star if nothing stands in front of it. A fragment
      stands behind a path or a query. */
  predicate EndOk(path: seq<byte>, query: Option<seq<byte>>, fragment: Option<seq<byte>>, first: bool) {
    && IsPathText(path) && (path != [] ==> path[0] == '/' as int || (first && path[0] == '*' as int))
    && (query.Some? ==> All(query.value, QueryOctet))
    && (fragment.Some? ==> All(fragment.value, FragmentOctet) && (path != [] || query.Some?))
  }

  /** The texts that make a request target. Only CONNECT begins with the server part; any other target has a scheme in
      front of it, or begins with its path. */
  predicate OuterOk(o: Outer, isConnect: bool) {
    && (o.scheme.Some? ==> !isConnect && o.scheme.value != [] && All(o.scheme.value, IsLetter))
    && (o.scheme.None? && !isConnect ==> o.server == [] && o.path != [])
    && IsServerText(o.server) && EndOk(o.path, o.query, o.fragment, o.scheme.None? && !isConnect)
    && (o.server != [] || o.path != [] || o.query.Some?)
  }

  /** The piece of field `f`, unless it is empty. */
  function Piece(f: UrlField, off: nat, len: nat): map<UrlField, Span> {
    if len == 0 then map[] else map[f := Span(off, len)]
  }

  /** Further '#' at the beginning of a fragment do not count. */
  function Hashes(s: seq<byte>): (n: nat)
    ensures n <= |s|
  {
    if s == [] || s[0] != '#' as int then 0 else 1 + Hashes(s[1..])
  }

  function SchemePiece(scheme: Option<seq<byte>>): map<UrlField, Span> {
    if scheme.Some? then Piece(Schema, 0, |scheme.value|) else map[]
  }

  /** Path, query and fragment, from `off` on. */
  function TailPieces(off: nat, path: seq<byte>, query: Option<seq<byte>>, fragment: Option<seq<byte>>): map<UrlField, Span> {
    var at := off + |path|;
    Piece(Path, off, |path|)
    + QueryPiece(at, query)
    + (if fragment.Some? then FragmentPiece(at + |Led('?' as int, query)| + 1, fragment.value) else map[])
  }

  function QueryPiece(off: nat, query: Option<seq<byte>>): map<UrlField, Span> {
    if query.Some? then Piece(Query, off + 1, |query.value|) else map[]
  }

  function FragmentPiece(off: nat, text: seq<byte>): map<UrlField, Span> {
    Piece(Fragment, off + Hashes(text), |text| - Hashes(text))
  }

  function OuterPieces(o: Outer): map<UrlField, Span> {
    SchemePiece(o.scheme) + Piece(Host, |Front(o.scheme)|, |o.server|)
    + TailPieces(|Front(o.scheme)| + |o.server|, o.path, o.query, o.fragment)
  }

  // ---------- the URL automaton on each kind of octet ----------

  lemma OctetClasses(c: byte)
    ensures IsLetter(c) <==> IsAlpha(c)
    ensures UserOctet(c) <==> IsUserinfoChar(c)
    ensures HostOctet(c) <==> IsHostChar(c)
    ensures AddressOctet(c) <==> IsHex(c) || c == ':' as int || c == '.' as int
    ensures ZoneOctet(c) <==>
      IsAlphaNum(c) || c == '%' as int || c == '.' as int || c == '-' as int || c == '_' as int || c == '~' as int
    ensures PathOctet(c) <==> IsUrlChar(c)
    ensures ServerOctet(c) <==> IsUserinfoChar(c) || c == '@' as int || c == '[' as int || c == ']' as int
  {
  }

  predicate InServerPart(s: State) {
    s.ReqServerStart? || s.ReqServer? || s.ReqServerWithAt?
  }

  lemma FrontChar(c: byte)
    ensures ParseUrlChar(ReqSpacesBeforeUrl, c) ==
      if c == '/' as int || c == '*' as int then ReqPath else if IsLetter(c) then ReqSchema else Dead
    ensures ParseUrlChar(ReqSchema, c) == if IsLetter(c) then ReqSchema else if c == ':' as int then ReqSchemaSlash else Dead
    ensures ParseUrlChar(ReqSchemaSlash, c) == if c == '/' as int then ReqSchemaSlashSlash else Dead
    ensures ParseUrlChar(ReqSchemaSlashSlash, c) == if c == '/' as int then ReqServerStart else Dead
  {
    hide ParseServerChar;
  }

  lemma ServerChar(s: State, c: byte)
    requires InServerPart(s)
    ensures ParseUrlChar(s, c) ==
      if c == '/' as int then ReqPath
      else if c == '?' as int then ReqQueryStringStart
      else if c == '@' as int then (if s.ReqServerWithAt? then Dead else ReqServerWithAt)
      else if ServerOctet(c) then ReqServer else Dead
  {
    hide ParseServerChar, ServerOctet;
    ServerPartChar(c);
    if ServerOctet(c) {
      ServerPrintable(c);
    }
  }

  lemma ServerPartChar(c: byte)
    ensures ParseServerChar(c) ==
      if c == '/' as int then ReqPath
      else if c == '?' as int then ReqQueryStringStart
      else if c == '@' as int then ReqServerWithAt
      else if ServerOctet(c) then ReqServer else Dead
  {
    hide ServerOctet, IsUserinfoChar;
    OctetClasses(c);
  }

  lemma ServerPrintable(c: byte)
    requires ServerOctet(c)
    ensures c > 32
  {
  }

  lemma PathChar(c: byte)
    ensures ParseUrlChar(ReqPath, c) ==
      if PathOctet(c) then ReqPath else if c == '?' as int then ReqQueryStringStart
      else if c == '#' as int then ReqFragmentStart else Dead
  {
    hide ParseServerChar;
  }

  lemma QueryChar(c: byte)
    ensures ParseUrlChar(ReqQueryStringStart, c) == ParseUrlChar(ReqQueryString, c)
    ensures ParseUrlChar(ReqQueryString, c) ==
      if QueryOctet(c) then ReqQueryString else if c == '#' as int then ReqFragmentStart else Dead
  {
    hide ParseServerChar;
  }

  lemma FragmentChar(c: byte)
    ensures ParseUrlChar(ReqFragmentStart, c) ==
      if QueryOctet(c) then ReqFragment else if c == '#' as int then ReqFragmentStart else Dead
    ensures ParseUrlChar(ReqFragment, c) == if FragmentOctet(c) then ReqFragment else Dead
  {
    hide ParseServerChar;
  }

  // ---------- one stretch of a URL ----------

  function Fill(n: nat, l: Option<UrlField>): (r: Labels)
    ensures |r| == n
  {
    if n == 0 then [] else Fill(n - 1, l) + [l]
  }

  /** From state `s`, `text` leads to state `t` with these labels, and finds an '@' or not. */
  predicate Stretch(s: State, text: seq<byte>, t: State, labels: Labels, at: bool) {
    Scan(s, text) == t && UrlLabels(s, text) == labels && (FoundAt(s, text) <==> at)
  }

  lemma StretchEmpty(s: State)
    ensures Stretch(s, [], s, [], false)
  {
  }

  lemma StretchSnoc(s: State, text: seq<byte>, t: State, labels: Labels, at: bool, ch: byte)
    requires Stretch(s, text, t, labels, at)
    ensures var u := ParseUrlChar(t, ch);
      Stretch(s, text + [ch], u, labels + [FieldOf(u)], at || u.ReqServerWithAt?)
  {
    hide ParseUrlChar, FieldOf;
    assert (text + [ch])[..|text|] == text && (text + [ch])[|text|] == ch;
  }

  lemma {:induction false} StretchConcat(s: State, a: seq<byte>, t: State, la: Labels, atA: bool,
                                         b: seq<byte>, u: State, lb: Labels, atB: bool)
    requires Stretch(s, a, t, la, atA) && Stretch(t, b, u, lb, atB)
    ensures Stretch(s, a + b, u, la + lb, atA || atB)
    decreases |b|
  {
    hide ParseUrlChar, FieldOf;
    if b == [] {
      assert a + b == a && la + lb == la;
    } else {
      var init, ch := b[..|b| - 1], b[|b| - 1];
      var v, l, at := Scan(t, init), UrlLabels(t, init), FoundAt(t, init);
      StretchConcat(s, a, t, la, atA, init, v, l, at);
      StretchSnoc(s, a + init, v, la + l, atA || at, ch);
      assert a + init + [ch] == a + b && la + l + [FieldOf(u)] == la + lb;
    }
  }

  /** Octets that do not change the state. */
  lemma {:induction false} Stay(s: State, text: seq<byte>)
    requires !s.ReqServerWithAt? && forall i :: 0 <= i < |text| ==> ParseUrlChar(s, text[i]) == s
    ensures Stretch(s, text, s, Fill(|text|, FieldOf(s)), false)
    decreases |text|
  {
    hide ParseUrlChar, FieldOf;
    if text == [] {
      StretchEmpty(s);
    } else {
      var init, ch := text[..|text| - 1], text[|text| - 1];
      Stay(s, init);
      StretchSnoc(s, init, s, Fill(|init|, FieldOf(s)), false, ch);
      assert init + [ch] == text;
    }
  }

  lemma StretchOne(s: State, ch: byte)
    ensures var t := ParseUrlChar(s, ch); Stretch(s, [ch], t, [FieldOf(t)], t.ReqServerWithAt?)
  {
    hide ParseUrlChar, FieldOf;
    StretchEmpty(s);
    StretchSnoc(s, [], s, [], false, ch);
    assert [] + [ch] == [ch] && [] + [FieldOf(ParseUrlChar(s, ch))] == [FieldOf(ParseUrlChar(s, ch))];
  }

  /** A first octet that leads to `t`, and further ones that stay there. */
  lemma Enter(s: State, text: seq<byte>, t: State)
    requires text != [] && ParseUrlChar(s, text[0]) == t && !t.ReqServerWithAt?
    requires forall i :: 0 < i < |text| ==> ParseUrlChar(t, text[i]) == t
    ensures Stretch(s, text, t, Fill(|text|, FieldOf(t)), false)
  {
    hide ParseUrlChar, FieldOf, Stretch, Fill;
    var first, rest := [text[0]], text[1..];
    StretchOne(s, text[0]);
    Stay(t, rest);
    StretchConcat(s, first, t, [FieldOf(t)], false, rest, t, Fill(|rest|, FieldOf(t)), false);
    FillCons(|rest|, FieldOf(t));
    assert first + rest == text;
  }

  lemma {:induction false} FillCons(n: nat, l: Option<UrlField>)
    ensures [l] + Fill(n, l) == Fill(n + 1, l)
  {
    if n == 0 {
      assert [l] + [] == [] + [l];
    } else {
      FillCons(n - 1, l);
      assert [l] + (Fill(n - 1, l) + [l]) == [l] + Fill(n - 1, l) + [l];
    }
  }

  /** The state behind a server part. */
  function ServerEnd(s: State, server: seq<byte>): State {
    if server == [] then s else if server[|server| - 1] == '@' as int then ReqServerWithAt else ReqServer
  }

  lemma {:induction false} ServerStretch(text: seq<byte>)
    requires IsServerText(text)
    ensures Stretch(ReqServerStart, text, ServerEnd(ReqServerStart, text), Fill(|text|, Some(Host)), '@' as int in text)
    decreases |text|
  {
    hide ParseUrlChar, IsServerText, ServerEnd, FieldOf;
    if text == [] {
      ServerStays();
      StretchEmpty(ReqServerStart);
    } else {
      var init, ch := text[..|text| - 1], text[|text| - 1];
      assert init + [ch] == text;
      ServerStep(init, ch);
      ServerStretch(init);
      StretchSnoc(ReqServerStart, init, ServerEnd(ReqServerStart, init), Fill(|init|, Some(Host)), '@' as int in init, ch);
    }
  }

  lemma ServerStays()
    ensures ServerEnd(ReqServerStart, []) == ReqServerStart
  {
  }

  lemma ServerStep(init: seq<byte>, ch: byte)
    requires IsServerText(init + [ch])
    ensures IsServerText(init)
    ensures var t, u := ServerEnd(ReqServerStart, init), ServerEnd(ReqServerStart, init + [ch]);
      ParseUrlChar(t, ch) == u && FieldOf(u) == Some(Host) && (u.ReqServerWithAt? <==> ch == '@' as int)
  {
    hide ParseUrlChar, ServerOctet;
    var s := init + [ch];
    assert s[..|init|] == init && s[|init|] == ch;
    assert forall i :: 0 <= i < |init| ==> s[i] == init[i];
    ServerChar(ServerEnd(ReqServerStart, init), ch);
    SlashNotServer(ch);
  }

  lemma SlashNotServer(c: byte)
    requires ServerOctet(c)
    ensures c != '/' as int && c != '?' as int
  {
  }

  // ---------- the spans so far ----------

  lemma {:induction false} SpansFill(labels: Labels, n: nat, f: UrlField)
    requires f !in SpansOf(labels)
    ensures SpansOf(labels + Fill(n, Some(f))) == SpansOf(labels) + Piece(f, |labels|, n)
  {
    hide SpansOf;
    if n == 0 {
      assert labels + [] == labels;
    } else {
      SpansFill(labels, n - 1, f);
      var more := labels + Fill(n - 1, Some(f));
      SpansSnoc(more, Some(f));
      assert more + [Some(f)] == labels + Fill(n, Some(f));
    }
  }

  lemma {:induction false} SpansSkip(labels: Labels, n: nat)
    ensures SpansOf(labels + Fill(n, None)) == SpansOf(labels)
  {
    hide SpansOf;
    if n == 0 {
      assert labels + [] == labels;
    } else {
      SpansSkip(labels, n - 1);
      var more := labels + Fill(n - 1, None);
      SpansSnoc(more, None);
      assert more + [None] == labels + Fill(n, None);
    }
  }

  /** `text` leads from `s` to `t`; the fields in it have these spans, and an '@' is found or not. */
  predicate Read(s: State, text: seq<byte>, t: State, m: map<UrlField, Span>, at: bool) {
    Scan(s, text) == t && SpansOf(UrlLabels(s, text)) == m && (FoundAt(s, text) <==> at)
  }

  lemma ReadField(s: State, a: seq<byte>, t: State, m: map<UrlField, Span>, atA: bool,
                  b: seq<byte>, u: State, f: UrlField, atB: bool)
    requires Read(s, a, t, m, atA) && Stretch(t, b, u, Fill(|b|, Some(f)), atB) && f !in m
    ensures Read(s, a + b, u, m + Piece(f, |a|, |b|), atA || atB)
  {
    hide SpansOf, Piece;
    StretchConcat(s, a, t, UrlLabels(s, a), atA, b, u, Fill(|b|, Some(f)), atB);
    SpansFill(UrlLabels(s, a), |b|, f);
  }

  lemma ReadMark(s: State, a: seq<byte>, t: State, m: map<UrlField, Span>, at: bool, b: seq<byte>, u: State)
    requires Read(s, a, t, m, at) && Stretch(t, b, u, Fill(|b|, None), false)
    ensures Read(s, a + b, u, m, at)
  {
    hide SpansOf;
    StretchConcat(s, a, t, UrlLabels(s, a), at, b, u, Fill(|b|, None), false);
    SpansSkip(UrlLabels(s, a), |b|);
  }

  // ---------- a whole URL ----------

  lemma Letters(s: seq<byte>)
    requires s != [] && All(s, IsLetter)
    ensures Stretch(ReqSpacesBeforeUrl, s, ReqSchema, Fill(|s|, Some(Schema)), false)
  {
    hide ParseUrlChar;
    forall i | 0 <= i < |s|
      ensures ParseUrlChar(ReqSpacesBeforeUrl, s[i]) == ReqSchema && ParseUrlChar(ReqSchema, s[i]) == ReqSchema
    {
      assert IsLetter(s[i]);
      FrontChar(s[i]);
    }
    Enter(ReqSpacesBeforeUrl, s, ReqSchema);
  }

  lemma OneMark(s: State, ch: byte, t: State)
    requires ParseUrlChar(s, ch) == t && FieldOf(t) == None
    ensures Stretch(s, [ch], t, Fill(1, None), false)
  {
    hide ParseUrlChar, Stretch;
    StretchOne(s, ch);
    assert Fill(1, None) == Fill(0, None) + [None] == [None];
  }

  lemma Slashes()
    ensures Stretch(ReqSchema, SLASHES, ReqServerStart, Fill(3, None), false)
  {
    hide ParseUrlChar, Stretch, Fill, FieldOf;
    SlashMarks();
    var colon, slash, one := [':' as int], ['/' as int], Fill(1, None);
    StretchConcat(ReqSchema, colon, ReqSchemaSlash, one, false, slash, ReqSchemaSlashSlash, one, false);
    StretchConcat(ReqSchema, colon + slash, ReqSchemaSlashSlash, one + one, false, slash, ReqServerStart, one, false);
    assert colon + slash + slash == SLASHES;
    FillThree();
  }

  lemma SlashMarks()
    ensures Stretch(ReqSchema, [':' as int], ReqSchemaSlash, Fill(1, None), false)
    ensures Stretch(ReqSchemaSlash, ['/' as int], ReqSchemaSlashSlash, Fill(1, None), false)
    ensures Stretch(ReqSchemaSlashSlash, ['/' as int], ReqServerStart, Fill(1, None), false)
  {
    hide ParseUrlChar, Stretch, Fill;
    FrontChar(':' as int);
    FrontChar('/' as int);
    OneMark(ReqSchema, ':' as int, ReqSchemaSlash);
    OneMark(ReqSchemaSlash, '/' as int, ReqSchemaSlashSlash);
    OneMark(ReqSchemaSlashSlash, '/' as int, ReqServerStart);
  }

  lemma FillThree()
    ensures Fill(1, None) + Fill(1, None) + Fill(1, None) == Fill(3, None)
  {
    assert Fill(1, None) == [None] && Fill(2, None) == [None, None];
  }

  /** The state in front of the server part, or of a path without one. */
  function FrontEnd(scheme: Option<seq<byte>>, isConnect: bool): State {
    if scheme.Some? then ReqServerStart else Start(isConnect)
  }

  lemma ReadFront(scheme: Option<seq<byte>>, isConnect: bool)
    requires scheme.Some? ==> !isConnect && scheme.value != [] && All(scheme.value, IsLetter)
    ensures Read(Start(isConnect), Front(scheme), FrontEnd(scheme, isConnect), SchemePiece(scheme), false)
  {
    hide ParseUrlChar, SpansOf, Piece, UrlLabels, Scan, FoundAt, Stretch;
    var s := Start(isConnect);
    ReadEmpty(s);
    if scheme.Some? {
      Letters(scheme.value);
      ReadField(s, [], s, map[], false, scheme.value, ReqSchema, Schema, false);
      assert [] + scheme.value == scheme.value;
      assert map[] + Piece(Schema, 0, |scheme.value|) == Piece(Schema, 0, |scheme.value|);
      Slashes();
      ReadMark(s, scheme.value, ReqSchema, Piece(Schema, 0, |scheme.value|), false, SLASHES, ReqServerStart);
    }
  }

  lemma ReadEmpty(s: State)
    ensures Read(s, [], s, map[], false)
  {
  }

  /** The state behind a path. */
  function PathEnd(s: State, path: seq<byte>): State {
    if path == [] then s else ReqPath
  }

  lemma PathStretch(s: State, path: seq<byte>)
    requires IsPathText(path)
    requires path != [] ==>
      if s == ReqSpacesBeforeUrl then path[0] == '/' as int || path[0] == '*' as int else InServerPart(s) && path[0] == '/' as int
    ensures Stretch(s, path, PathEnd(s, path), Fill(|path|, Some(Path)), false)
  {
    hide ParseUrlChar, PathOctet, Stretch, ServerOctet, IsLetter;
    if path == [] {
      StretchEmpty(s);
    } else {
      FrontChar(path[0]);
      if InServerPart(s) {
        ServerChar(s, path[0]);
      }
      forall i | 0 < i < |path| ensures ParseUrlChar(ReqPath, path[i]) == ReqPath {
        PathChar(path[i]);
      }
      Enter(s, path, ReqPath);
    }
  }

  function QueryEnd(s: State, query: Option<seq<byte>>): State {
    if query.None? then s else if query.value == [] then ReqQueryStringStart else ReqQueryString
  }

  lemma QueryStretch(text: seq<byte>)
    requires All(text, QueryOctet)
    ensures Stretch(ReqQueryStringStart, text, QueryEnd(ReqQueryStringStart, Some(text)), Fill(|text|, Some(Query)), false)
  {
    hide ParseUrlChar, Stretch;
    if text == [] {
      StretchEmpty(ReqQueryStringStart);
    } else {
      forall i | 0 <= i < |text|
        ensures ParseUrlChar(ReqQueryStringStart, text[i]) == ParseUrlChar(ReqQueryString, text[i]) == ReqQueryString
      {
        assert QueryOctet(text[i]);
        QueryChar(text[i]);
      }
      Enter(ReqQueryStringStart, text, ReqQueryString);
    }
  }

  function FragmentEnd(text: seq<byte>): State {
    if Hashes(text) == |text| then ReqFragmentStart else ReqFragment
  }

  lemma {:induction false} HashesAre(s: seq<byte>)
    ensures forall i :: 0 <= i < Hashes(s) ==> s[i] == '#' as int
    ensures Hashes(s) < |s| ==> s[Hashes(s)] != '#' as int
  {
    if s != [] && s[0] == '#' as int {
      HashesAre(s[1..]);
      assert forall i :: 0 < i < Hashes(s) ==> s[i] == s[1..][i - 1];
    }
  }

  /** The further '#' of a fragment. */
  lemma HashStretch(text: seq<byte>)
    ensures Stretch(ReqFragmentStart, text[..Hashes(text)], ReqFragmentStart, Fill(Hashes(text), None), false)
  {
    hide ParseUrlChar, Stretch, Hashes;
    HashesAre(text);
    var h := text[..Hashes(text)];
    forall i | 0 <= i < |h| ensures ParseUrlChar(ReqFragmentStart, h[i]) == ReqFragmentStart {
      FragmentChar(h[i]);
    }
    Stay(ReqFragmentStart, h);
  }

  lemma FragmentStretch(text: seq<byte>)
    requires All(text, FragmentOctet)
    ensures var f := text[Hashes(text)..];
      Stretch(ReqFragmentStart, f, FragmentEnd(text), Fill(|f|, Some(Fragment)), false)
  {
    hide ParseUrlChar, Stretch, Hashes;
    var f := text[Hashes(text)..];
    if f == [] {
      StretchEmpty(ReqFragmentStart);
    } else {
      HashesAre(text);
      forall i | 0 <= i < |f| ensures ParseUrlChar(ReqFragment, f[i]) == ReqFragment {
        assert FragmentOctet(text[Hashes(text) + i]);
        FragmentChar(f[i]);
      }
      assert FragmentOctet(text[Hashes(text)]);
      FragmentChar(f[0]);
      Enter(ReqFragmentStart, f, ReqFragment);
    }
  }

  lemma PieceKeys(f: UrlField, off: nat, len: nat)
    ensures forall g :: g in Piece(f, off, len) ==> g == f
  {
  }

  /** A query, if there is one, behind the server part or a path. */
  lemma ReadQuery(s: State, a: seq<byte>, t: State, m: map<UrlField, Span>, at: bool, query: Option<seq<byte>>)
    requires Read(s, a, t, m, at) && Query !in m
    requires query.Some? ==> All(query.value, QueryOctet) && (InServerPart(t) || t == ReqPath)
    ensures Read(s, a + Led('?' as int, query), QueryEnd(t, query),
                 m + QueryPiece(|a|, query), at)
  {
    hide ParseUrlChar, Read, Stretch, Piece, All;
    var mark := ['?' as int];
    if query.Some? {
      if InServerPart(t) {
        ServerChar(t, '?' as int);
      } else {
        PathChar('?' as int);
      }
      OneMark(t, '?' as int, ReqQueryStringStart);
      ReadMark(s, a, t, m, at, mark, ReqQueryStringStart);
      QueryStretch(query.value);
      ReadField(s, a + mark, ReqQueryStringStart, m, at, query.value, QueryEnd(t, query), Query, false);
      assert a + mark + query.value == a + Led('?' as int, query);
    } else {
      assert a + [] == a && m + map[] == m;
    }
  }

  predicate TakesFragment(s: State) {
    s.ReqPath? || s.ReqQueryStringStart? || s.ReqQueryString?
  }

  lemma ReadFragment(s: State, a: seq<byte>, t: State, m: map<UrlField, Span>, at: bool, text: seq<byte>)
    requires Read(s, a, t, m, at) && Fragment !in m && TakesFragment(t) && All(text, FragmentOctet)
    ensures Read(s, a + (['#' as int] + text), FragmentEnd(text), m + FragmentPiece(|a| + 1, text), at)
  {
    hide ParseUrlChar, Read, Stretch, Piece, All, Hashes;
    var mark, k := ['#' as int], Hashes(text);
    PathChar('#' as int);
    QueryChar('#' as int);
    OneMark(t, '#' as int, ReqFragmentStart);
    ReadMark(s, a, t, m, at, mark, ReqFragmentStart);
    HashStretch(text);
    ReadMark(s, a + mark, ReqFragmentStart, m, at, text[..k], ReqFragmentStart);
    FragmentStretch(text);
    ReadField(s, a + mark + text[..k], ReqFragmentStart, m, at, text[k..], FragmentEnd(text), Fragment, false);
    assert text[..k] + text[k..] == text;
    assert a + mark + text[..k] + text[k..] == a + (mark + text);
  }

  /** Path, query and fragment as they may follow state `t`. */
  predicate TailOk(t: State, path: seq<byte>, query: Option<seq<byte>>, fragment: Option<seq<byte>>) {
    && IsPathText(path)
    && (if t == ReqSpacesBeforeUrl then path != [] && (path[0] == '/' as int || path[0] == '*' as int)
        else InServerPart(t) && (path != [] ==> path[0] == '/' as int))
    && (query.Some? ==> All(query.value, QueryOctet))
    && (fragment.Some? ==> All(fragment.value, FragmentOctet) && (path != [] || query.Some?))
  }

  function TailText(path: seq<byte>, query: Option<seq<byte>>, fragment: Option<seq<byte>>): seq<byte> {
    path + Led('?' as int, query) + Led('#' as int, fragment)
  }

  function TailEnd(t: State, path: seq<byte>, query: Option<seq<byte>>, fragment: Option<seq<byte>>): State {
    if fragment.Some? then FragmentEnd(fragment.value) else QueryEnd(PathEnd(t, path), query)
  }

  predicate NoTail(m: map<UrlField, Span>) {
    Path !in m && Query !in m && Fragment !in m
  }

  lemma ReadPathQuery(s: State, a: seq<byte>, t: State, m: map<UrlField, Span>, at: bool, path: seq<byte>,
                      query: Option<seq<byte>>)
    requires Read(s, a, t, m, at) && NoTail(m) && TailOk(t, path, query, None)
    ensures var m2 := m + Piece(Path, |a|, |path|) + QueryPiece(|a| + |path|, query);
      Read(s, a + path + Led('?' as int, query), QueryEnd(PathEnd(t, path), query), m2, at) && Fragment !in m2
  {
    hide ParseUrlChar, Read, Stretch, Piece, All, PathOctet, IsPathText;
    PathStretch(t, path);
    ReadField(s, a, t, m, at, path, PathEnd(t, path), Path, false);
    PieceKeys(Path, |a|, |path|);
    ReadQuery(s, a + path, PathEnd(t, path), m + Piece(Path, |a|, |path|), at, query);
    if query.Some? {
      PieceKeys(Query, |a + path| + 1, |query.value|);
    }
  }

  lemma TailWithout(t: State, path: seq<byte>, query: Option<seq<byte>>, fragment: Option<seq<byte>>)
    requires TailOk(t, path, query, fragment)
    ensures TailOk(t, path, query, None)
    ensures fragment.Some? ==> All(fragment.value, FragmentOctet) && TakesFragment(QueryEnd(PathEnd(t, path), query))
  {
    hide All, IsPathText;
  }

  lemma ReadEnd(s: State, a: seq<byte>, t: State, m: map<UrlField, Span>, at: bool, fragment: Option<seq<byte>>)
    requires Read(s, a, t, m, at) && Fragment !in m
    requires fragment.Some? ==> All(fragment.value, FragmentOctet) && TakesFragment(t)
    ensures Read(s, a + Led('#' as int, fragment), if fragment.Some? then FragmentEnd(fragment.value) else t,
                 m + (if fragment.Some? then FragmentPiece(|a| + 1, fragment.value) else map[]), at)
  {
    hide ParseUrlChar, Read, All, FragmentEnd, FragmentPiece, TakesFragment;
    if fragment.Some? {
      ReadFragment(s, a, t, m, at, fragment.value);
    } else {
      assert a + [] == a && m + map[] == m;
    }
  }

  lemma TailTextAgain(a: seq<byte>, path: seq<byte>, query: Option<seq<byte>>, fragment: Option<seq<byte>>)
    ensures a + path + Led('?' as int, query) + Led('#' as int, fragment) == a + TailText(path, query, fragment)
    ensures |a + path + Led('?' as int, query)| == |a| + |path| + |Led('?' as int, query)|
  {
    hide Led;
  }

  lemma ReadTail(s: State, a: seq<byte>, t: State, m: map<UrlField, Span>, at: bool, path: seq<byte>, query: Option<seq<byte>>,
                 fragment: Option<seq<byte>>)
    requires Read(s, a, t, m, at) && NoTail(m) && TailOk(t, path, query, fragment)
    ensures Read(s, a + TailText(path, query, fragment), TailEnd(t, path, query, fragment),
                 m + TailPieces(|a|, path, query, fragment), at)
  {
    hide ParseUrlChar, Read, Piece, All, FragmentEnd, TailOk, QueryEnd, PathEnd, NoTail, QueryPiece, Led, TailText,
         FragmentPiece, TailPieces, TakesFragment;
    TailWithout(t, path, query, fragment);
    ReadPathQuery(s, a, t, m, at, path, query);
    var m2, a2 := m + Piece(Path, |a|, |path|) + QueryPiece(|a| + |path|, query), a + path + Led('?' as int, query);
    ReadEnd(s, a2, QueryEnd(PathEnd(t, path), query), m2, at, fragment);
    TailUnion(m, |a|, path, query, fragment);
    TailTextAgain(a, path, query, fragment);
  }

  lemma TailUnion(m: map<UrlField, Span>, off: nat, path: seq<byte>, query: Option<seq<byte>>, fragment: Option<seq<byte>>)
    ensures var at := off + |path|;
      var f := if fragment.Some? then FragmentPiece(at + |Led('?' as int, query)| + 1, fragment.value) else map[];
      m + Piece(Path, off, |path|) + QueryPiece(at, query) + f == m + TailPieces(off, path, query, fragment)
  {
    hide Piece, FragmentPiece;
    var at := off + |path|;
    var f := if fragment.Some? then FragmentPiece(at + |Led('?' as int, query)| + 1, fragment.value) else map[];
    UnionAgain(m, Piece(Path, off, |path|), QueryPiece(at, query), f);
  }

  lemma UnionAgain(m: map<UrlField, Span>, a: map<UrlField, Span>, b: map<UrlField, Span>, c: map<UrlField, Span>)
    ensures m + a + b + c == m + (a + b + c)
  {
  }

  lemma ServerEndIn(server: seq<byte>)
    ensures InServerPart(ServerEnd(ReqServerStart, server))
    ensures (server != [] ==> !ServerEnd(ReqServerStart, server).ReqServerStart?)
  {
  }

  lemma TailPast(t: State, path: seq<byte>, query: Option<seq<byte>>, fragment: Option<seq<byte>>)
    requires TailOk(t, path, query, fragment) && (t == ReqServerStart ==> path != [] || query.Some?)
    ensures var u := TailEnd(t, path, query, fragment); u != Dead && !InUrlPrefix(u)
  {
    hide All, IsPathText, Hashes;
  }

  /** The state behind the text of a URL. */
  function OuterEnd(o: Outer, isConnect: bool): State {
    TailEnd(ServerState(o, isConnect), o.path, o.query, o.fragment)
  }

  function ServerState(o: Outer, isConnect: bool): State {
    if o.scheme.None? && !isConnect then ReqSpacesBeforeUrl else ServerEnd(ReqServerStart, o.server)
  }

  lemma OuterTail(o: Outer, isConnect: bool)
    requires OuterOk(o, isConnect)
    ensures TailOk(ServerState(o, isConnect), o.path, o.query, o.fragment)
    ensures OuterEnd(o, isConnect) != Dead && !InUrlPrefix(OuterEnd(o, isConnect))
    ensures IsServerText(o.server) && (o.scheme.Some? ==> !isConnect && o.scheme.value != [] && All(o.scheme.value, IsLetter))
  {
    hide All, IsPathText, Hashes, IsServerText, TailEnd, ServerEnd;
    ServerEndIn(o.server);
    ServerStays();
    TailPast(ServerState(o, isConnect), o.path, o.query, o.fragment);
  }

  /** The URL automaton takes every such text, and finds exactly its pieces. */
  lemma OuterRead(o: Outer, isConnect: bool)
    requires OuterOk(o, isConnect)
    ensures Read(Start(isConnect), OuterText(o), OuterEnd(o, isConnect), OuterPieces(o), '@' as int in o.server)
    ensures OuterEnd(o, isConnect) != Dead && !InUrlPrefix(OuterEnd(o, isConnect))
  {
    hide ParseUrlChar, Read, Stretch, Piece, IsServerText, All, TailOk, TailEnd, TailPieces, TailText, ServerEnd;
    OuterTail(o, isConnect);
    ReadFront(o.scheme, isConnect);
    var s, a, t := Start(isConnect), Front(o.scheme), ServerState(o, isConnect);
    var m := SchemePiece(o.scheme);
    if o.scheme.Some? {
      PieceKeys(Schema, 0, |o.scheme.value|);
    }
    ReadServer(s, a, FrontEnd(o.scheme, isConnect), m, o.server, t, o.scheme.None? && !isConnect);
    PieceKeys(Host, |a|, |o.server|);
    var m1 := m + Piece(Host, |a|, |o.server|);
    ReadTail(s, a + o.server, t, m1, '@' as int in o.server, o.path, o.query, o.fragment);
    OuterPiecesAre(o);
  }

  lemma OuterPiecesAre(o: Outer)
    ensures OuterText(o) == Front(o.scheme) + o.server + TailText(o.path, o.query, o.fragment)
  {
  }

  lemma ReadServer(s: State, a: seq<byte>, t: State, m: map<UrlField, Span>, server: seq<byte>, u: State, without: bool)
    requires Read(s, a, t, m, false) && Host !in m && IsServerText(server)
    requires if without then server == [] && u == t else t == ReqServerStart && u == ServerEnd(ReqServerStart, server)
    ensures Read(s, a + server, u, m + Piece(Host, |a|, |server|), '@' as int in server)
  {
    hide ParseUrlChar, Read, Stretch, IsServerText, ServerEnd, Piece;
    if without {
      StretchEmpty(t);
    } else {
      ServerStretch(server);
    }
    ReadField(s, a, t, m, false, server, u, Host, '@' as int in server);
  }

  // ---------- nothing else is taken ----------

  /** A text as the URL automaton has divided it so far. */
  datatype Draft = Draft(scheme: seq<byte>, colon: seq<byte>, server: seq<byte>, path: seq<byte>, query: Option<seq<byte>>,
                         fragment: Option<seq<byte>>)

  const NOTHING: Draft := Draft([], [], [], [], None, None)

  function DraftText(d: Draft): seq<byte> {
    d.scheme + d.colon + d.server + TailText(d.path, d.query, d.fragment)
  }

  /** The draft with one more octet, which has led to state `t`. */
  function Extend(d: Draft, t: State, ch: byte): Draft {
    if t.ReqSchema? then d.(scheme := d.scheme + [ch])
    else if t.ReqSchemaSlash? || t.ReqSchemaSlashSlash? || t.ReqServerStart? then d.(colon := d.colon + [ch])
    else if t.ReqServer? || t.ReqServerWithAt? then d.(server := d.server + [ch])
    else if t.ReqPath? then d.(path := d.path + [ch])
    else if t.ReqQueryStringStart? || t.ReqQueryString? then d.(query := Longer(d.query, ch))
    else d.(fragment := Longer(d.fragment, ch))
  }

  /** The mark of a part that is not there yet, or one more octet of it. */
  function Longer(part: Option<seq<byte>>, ch: byte): Option<seq<byte>> {
    if part.Some? then Some(part.value + [ch]) else Some([])
  }

  /** The part in front of the path is complete. */
  predicate Based(d: Draft, isConnect: bool) {
    if isConnect then d.scheme == [] && d.colon == []
    else d.scheme != [] && All(d.scheme, IsLetter) && d.colon == SLASHES
  }

  predicate Rooted(d: Draft, isConnect: bool) {
    && IsServerText(d.server) && IsPathText(d.path)
    && if d.colon == [] && !isConnect then
         d.scheme == [] && d.server == [] && d.path != [] && (d.path[0] == '/' as int || d.path[0] == '*' as int)
       else Based(d, isConnect) && (d.path != [] ==> d.path[0] == '/' as int)
  }

  predicate NoTailYet(d: Draft) {
    d.path == [] && d.query.None? && d.fragment.None?
  }

  /** What state `t` says about the draft: in front of the server part, inside it, or behind it. */
  predicate FrontFits(d: Draft, t: State, isConnect: bool) {
    && !isConnect && NoTailYet(d) && d.server == [] && All(d.scheme, IsLetter)
    && (t.ReqSpacesBeforeUrl? <==> d.scheme == [])
    && d.colon == SLASHES[..if t.ReqSchemaSlash? then 1 else if t.ReqSchemaSlashSlash? then 2 else 0]
  }

  predicate ServerFits(d: Draft, t: State, isConnect: bool) {
    Based(d, isConnect) && NoTailYet(d) && IsServerText(d.server) && t == ServerEnd(ReqServerStart, d.server)
  }

  predicate TailFits(d: Draft, t: State, isConnect: bool) {
    && Rooted(d, isConnect)
    && (d.query.Some? ==> All(d.query.value, QueryOctet))
    && (d.fragment.Some? ==> All(d.fragment.value, FragmentOctet) && (d.path != [] || d.query.Some?))
    && (t.ReqPath? ==> d.path != [] && d.query.None? && d.fragment.None?)
    && (t.ReqQueryStringStart? || t.ReqQueryString? ==> d.query.Some? && d.fragment.None?)
    && (t.ReqFragmentStart? || t.ReqFragment? ==> d.fragment.Some?)
  }

  predicate IsFront(t: State) {
    t.ReqSpacesBeforeUrl? || t.ReqSchema? || t.ReqSchemaSlash? || t.ReqSchemaSlashSlash?
  }

  predicate IsTail(t: State) {
    t.ReqPath? || t.ReqQueryStringStart? || t.ReqQueryString? || t.ReqFragmentStart? || t.ReqFragment?
  }

  predicate Fits(d: Draft, t: State, isConnect: bool) {
    if IsFront(t) then FrontFits(d, t, isConnect)
    else if InServerPart(t) then ServerFits(d, t, isConnect)
    else IsTail(t) && TailFits(d, t, isConnect)
  }

  lemma AllMore(s: seq<byte>, p: byte -> bool, c: byte)
    requires All(s, p) && p(c)
    ensures All(s + [c], p)
  {
  }

  lemma SlashesSoFar()
    ensures SLASHES[..0] == [] && SLASHES[..1] == [':' as int] && SLASHES[..2] == [':' as int, '/' as int]
    ensures [':' as int, '/' as int] + ['/' as int] == SLASHES
    ensures ServerEnd(ReqServerStart, []) == ReqServerStart && IsServerText([])
  {
  }

  lemma ExtendFront(d: Draft, s: State, ch: byte, isConnect: bool)
    requires IsFront(s) && FrontFits(d, s, isConnect) && ParseUrlChar(s, ch) != Dead
    ensures var t := ParseUrlChar(s, ch); Fits(Extend(d, t, ch), t, isConnect)
  {
    hide ParseUrlChar, All, IsLetter, IsServerText, ServerEnd;
    SlashesSoFar();
    FrontChar(ch);
    if IsLetter(ch) {
      AllMore(d.scheme, IsLetter, ch);
    }
    LetterNotMark(ch);
  }

  lemma LetterNotMark(c: byte)
    ensures IsLetter(c) ==> c != '/' as int && c != '*' as int && c != ':' as int
  {
  }

  lemma ServerMore(server: seq<byte>, ch: byte)
    requires IsServerText(server) && ServerOctet(ch)
    requires ServerEnd(ReqServerStart, server).ReqServerWithAt? ==> ch != '@' as int
    ensures IsServerText(server + [ch])
    ensures ServerEnd(ReqServerStart, server + [ch]) == if ch == '@' as int then ReqServerWithAt else ReqServer
  {
    hide ServerOctet;
  }

  lemma AtIsServer()
    ensures ServerOctet('@' as int)
  {
  }

  lemma ExtendServer(d: Draft, s: State, ch: byte, isConnect: bool)
    requires InServerPart(s) && ServerFits(d, s, isConnect) && ParseUrlChar(s, ch) != Dead
    ensures var t := ParseUrlChar(s, ch); Fits(Extend(d, t, ch), t, isConnect)
  {
    hide ParseUrlChar, ServerOctet, PathOctet, IsServerText, ServerEnd;
    ServerChar(s, ch);
    AtIsServer();
    if ch != '/' as int && ch != '?' as int {
      ServerMore(d.server, ch);
    } else {
      assert SLASHES != [];
      ShortPaths(ch);
    }
  }

  lemma ShortPaths(ch: byte)
    ensures IsPathText([]) && IsPathText([ch])
  {
  }

  lemma PathMore(path: seq<byte>, c: byte)
    requires path != [] && IsPathText(path) && PathOctet(c)
    ensures IsPathText(path + [c]) && (path + [c])[0] == path[0]
  {
    hide PathOctet;
  }

  lemma ExtendTail(d: Draft, s: State, ch: byte, isConnect: bool)
    requires IsTail(s) && TailFits(d, s, isConnect) && ParseUrlChar(s, ch) != Dead
    ensures var t := ParseUrlChar(s, ch); Fits(Extend(d, t, ch), t, isConnect)
  {
    hide ParseUrlChar, IsServerText, PathOctet, IsLetter, IsPathText, All, QueryOctet, FragmentOctet;
    PathChar(ch);
    QueryChar(ch);
    FragmentChar(ch);
    EmptyParts();
    TailOctets(ch);
    if s.ReqPath? && PathOctet(ch) {
      PathMore(d.path, ch);
    }
    if d.query.Some? && QueryOctet(ch) {
      AllMore(d.query.value, QueryOctet, ch);
    }
    if d.fragment.Some? && FragmentOctet(ch) {
      AllMore(d.fragment.value, FragmentOctet, ch);
    }
  }

  lemma EmptyParts()
    ensures All([], QueryOctet) && All([], FragmentOctet)
  {
  }

  lemma TailOctets(c: byte)
    ensures PathOctet(c) ==> QueryOctet(c) && c != '?' as int && c != '#' as int
    ensures FragmentOctet(c) <==> QueryOctet(c) || c == '#' as int
    ensures QueryOctet(c) ==> c != '#' as int
  {
  }

  // what one more octet does to the text

  lemma GrowFront(d: Draft, ch: byte)
    requires d.server == [] && NoTailYet(d)
    ensures d.colon == [] ==> DraftText(d.(scheme := d.scheme + [ch])) == DraftText(d) + [ch]
    ensures DraftText(d.(colon := d.colon + [ch])) == DraftText(d) + [ch]
  {
  }

  lemma GrowServer(d: Draft, ch: byte)
    requires NoTailYet(d)
    ensures DraftText(d.(server := d.server + [ch])) == DraftText(d) + [ch]
  {
    assert d.scheme + d.colon + (d.server + [ch]) == d.scheme + d.colon + d.server + [ch];
  }

  lemma TailGrows(front: seq<byte>, tail: seq<byte>, ch: byte)
    ensures front + (tail + [ch]) == front + tail + [ch]
  {
  }

  lemma GrowPath(d: Draft, ch: byte)
    requires d.query.None? && d.fragment.None?
    ensures DraftText(d.(path := d.path + [ch])) == DraftText(d) + [ch]
  {
    assert TailText(d.path + [ch], None, None) == TailText(d.path, None, None) + [ch];
    TailGrows(d.scheme + d.colon + d.server, TailText(d.path, None, None), ch);
  }

  lemma LedGrows(part: Option<seq<byte>>, mark: byte, ch: byte)
    requires part.None? ==> ch == mark
    ensures Led(mark, Longer(part, ch)) == Led(mark, part) + [ch]
  {
  }

  lemma GrowQuery(d: Draft, ch: byte)
    requires d.fragment.None? && (d.query.None? ==> ch == '?' as int)
    ensures DraftText(d.(query := Longer(d.query, ch))) == DraftText(d) + [ch]
  {
    hide Led, Longer;
    LedGrows(d.query, '?' as int, ch);
    NoneLed('#' as int);
    assert TailText(d.path, Longer(d.query, ch), None) == TailText(d.path, d.query, None) + [ch];
    TailGrows(d.scheme + d.colon + d.server, TailText(d.path, d.query, None), ch);
  }

  lemma NoneLed(mark: byte)
    ensures Led(mark, None) == []
  {
  }

  lemma GrowFragment(d: Draft, ch: byte)
    requires d.fragment.None? ==> ch == '#' as int
    ensures DraftText(d.(fragment := Longer(d.fragment, ch))) == DraftText(d) + [ch]
  {
    hide Led, Longer;
    LedGrows(d.fragment, '#' as int, ch);
    assert TailText(d.path, d.query, Longer(d.fragment, ch)) == TailText(d.path, d.query, d.fragment) + [ch];
    TailGrows(d.scheme + d.colon + d.server, TailText(d.path, d.query, d.fragment), ch);
  }

  /** Which part can grow: those behind it are not there yet. */
  predicate CanGrow(d: Draft, t: State, ch: byte) {
    if IsFront(t) || t.ReqServerStart? then
      !t.ReqSpacesBeforeUrl? && d.server == [] && NoTailYet(d) && (t.ReqSchema? ==> d.colon == [])
    else if InServerPart(t) then NoTailYet(d)
    else if t.ReqPath? then d.query.None? && d.fragment.None?
    else if t.ReqQueryStringStart? || t.ReqQueryString? then d.fragment.None? && (d.query.None? ==> ch == '?' as int)
    else IsTail(t) && (d.fragment.None? ==> ch == '#' as int)
  }

  lemma FrontGrows(d: Draft, s: State, ch: byte, isConnect: bool)
    requires IsFront(s) && FrontFits(d, s, isConnect) && ParseUrlChar(s, ch) != Dead
    ensures CanGrow(d, ParseUrlChar(s, ch), ch)
  {
    hide ParseUrlChar, All, IsLetter;
    SlashesSoFar();
    FrontChar(ch);
  }

  lemma ServerGrows(d: Draft, s: State, ch: byte, isConnect: bool)
    requires InServerPart(s) && ServerFits(d, s, isConnect) && ParseUrlChar(s, ch) != Dead
    ensures CanGrow(d, ParseUrlChar(s, ch), ch)
  {
    hide ParseUrlChar, All, IsServerText, ServerOctet, ServerEnd, Based;
    ServerChar(s, ch);
  }

  lemma TailCanGrow(d: Draft, s: State, ch: byte, isConnect: bool)
    requires IsTail(s) && TailFits(d, s, isConnect) && ParseUrlChar(s, ch) != Dead
    ensures CanGrow(d, ParseUrlChar(s, ch), ch)
  {
    hide ParseUrlChar, All, PathOctet, Rooted;
    PathChar(ch);
    QueryChar(ch);
    FragmentChar(ch);
  }

  lemma WhatGrows(d: Draft, s: State, ch: byte, isConnect: bool)
    requires Fits(d, s, isConnect) && ParseUrlChar(s, ch) != Dead
    ensures CanGrow(d, ParseUrlChar(s, ch), ch)
  {
    hide ParseUrlChar, FrontFits, ServerFits, TailFits, CanGrow;
    if IsFront(s) {
      FrontGrows(d, s, ch, isConnect);
    } else if InServerPart(s) {
      ServerGrows(d, s, ch, isConnect);
    } else {
      TailCanGrow(d, s, ch, isConnect);
    }
  }

  lemma ExtendText(d: Draft, s: State, ch: byte, isConnect: bool)
    requires Fits(d, s, isConnect) && ParseUrlChar(s, ch) != Dead
    ensures var t := ParseUrlChar(s, ch); DraftText(Extend(d, t, ch)) == DraftText(d) + [ch]
  {
    hide ParseUrlChar, Fits, DraftText, NoTailYet;
    WhatGrows(d, s, ch, isConnect);
    var t := ParseUrlChar(s, ch);
    if IsFront(t) || t.ReqServerStart? {
      GrowFront(d, ch);
    } else if t.ReqServer? || t.ReqServerWithAt? {
      GrowServer(d, ch);
    } else if t.ReqPath? {
      GrowPath(d, ch);
    } else if t.ReqQueryStringStart? || t.ReqQueryString? {
      GrowQuery(d, ch);
    } else {
      GrowFragment(d, ch);
    }
  }

  /** Every text that the URL automaton has not refused is one of its drafts. */
  lemma {:induction false} Drafted(text: seq<byte>, isConnect: bool) returns (d: Draft)
    requires Scan(Start(isConnect), text) != Dead
    ensures Fits(d, Scan(Start(isConnect), text), isConnect) && DraftText(d) == text
    decreases |text|
  {
    hide ParseUrlChar, Fits, DraftText, Extend;
    if text == [] {
      d := NOTHING;
      NothingFits(isConnect);
    } else {
      var init, ch := text[..|text| - 1], text[|text| - 1];
      DeadEnd(ch);
      var e := Drafted(init, isConnect);
      var s := Scan(Start(isConnect), init);
      ExtendText(e, s, ch, isConnect);
      ExtendFits(e, s, ch, isConnect);
      d := Extend(e, ParseUrlChar(s, ch), ch);
    }
  }

  lemma NothingFits(isConnect: bool)
    ensures Fits(NOTHING, Start(isConnect), isConnect) && DraftText(NOTHING) == []
  {
  }

  lemma ExtendFits(d: Draft, s: State, ch: byte, isConnect: bool)
    requires Fits(d, s, isConnect) && ParseUrlChar(s, ch) != Dead
    ensures var t := ParseUrlChar(s, ch); Fits(Extend(d, t, ch), t, isConnect)
  {
    hide ParseUrlChar, FrontFits, ServerFits, TailFits, Extend;
    if IsFront(s) {
      ExtendFront(d, s, ch, isConnect);
    } else if InServerPart(s) {
      ExtendServer(d, s, ch, isConnect);
    } else {
      ExtendTail(d, s, ch, isConnect);
    }
  }

  /** The text of a request target is one of those above, and no other text is taken. */
  lemma OuterFound(text: seq<byte>, isConnect: bool) returns (o: Outer)
    requires text != [] && Scan(Start(isConnect), text) != Dead && !InUrlPrefix(Scan(Start(isConnect), text))
    ensures OuterOk(o, isConnect) && OuterText(o) == text
  {
    hide ParseUrlChar, Fits, DraftText, Scan;
    var d := Drafted(text, isConnect);
    o := Outer(if d.colon == [] then None else Some(d.scheme), d.server, d.path, d.query, d.fragment);
    DraftIsOuter(d, Scan(Start(isConnect), text), isConnect);
  }

  /** In front of the server part there is a scheme with its mark, or nothing. */
  lemma DraftFront(d: Draft, t: State, isConnect: bool)
    requires Fits(d, t, isConnect) && !InUrlPrefix(t) && DraftText(d) != []
    ensures !IsFront(t) && t != ReqServerStart && d.scheme + d.colon == Front(if d.colon == [] then None else Some(d.scheme))
  {
    hide All, PathOctet, ServerOctet, IsServerText, IsPathText, ServerEnd;
    SlashesSoFar();
    assert t.ReqSpacesBeforeUrl? ==> d == NOTHING;
  }

  lemma DraftServed(d: Draft, t: State, isConnect: bool)
    requires InServerPart(t) && !t.ReqServerStart? && ServerFits(d, t, isConnect)
    ensures OuterOk(Outer(if d.colon == [] then None else Some(d.scheme), d.server, d.path, d.query, d.fragment), isConnect)
  {
    hide All, PathOctet, IsServerText;
    SlashesSoFar();
  }

  lemma DraftTailed(d: Draft, t: State, isConnect: bool)
    requires IsTail(t) && TailFits(d, t, isConnect)
    ensures OuterOk(Outer(if d.colon == [] then None else Some(d.scheme), d.server, d.path, d.query, d.fragment), isConnect)
  {
    hide All, PathOctet, IsServerText, IsPathText;
  }

  lemma DraftIsOuter(d: Draft, t: State, isConnect: bool)
    requires Fits(d, t, isConnect) && !InUrlPrefix(t) && DraftText(d) != []
    ensures var o := Outer(if d.colon == [] then None else Some(d.scheme), d.server, d.path, d.query, d.fragment);
      OuterOk(o, isConnect) && OuterText(o) == DraftText(d)
  {
    hide OuterOk, OuterText, ServerFits, TailFits, FrontFits, InUrlPrefix, Front, TailText;
    DraftFront(d, t, isConnect);
    if InServerPart(t) {
      DraftServed(d, t, isConnect);
    } else {
      DraftTailed(d, t, isConnect);
    }
    OuterPiecesAre(Outer(if d.colon == [] then None else Some(d.scheme), d.server, d.path, d.query, d.fragment));
  }

  // ---------- request targets ----------

  /** The request targets. */
  ghost predicate IsTarget(t: seq<byte>, isConnect: bool) {
    exists o: Outer :: OuterOk(o, isConnect) && OuterText(o) == t
  }

  /** They are exactly the texts that the URL automaton takes and leaves behind the scheme. */
  lemma TargetScan(t: seq<byte>, isConnect: bool)
    ensures var s := Scan(Start(isConnect), t);
      IsTarget(t, isConnect) <==> t != [] && s != Dead && !InUrlPrefix(s)
  {
    hide OuterOk, OuterText, Scan, InUrlPrefix;
    forall o: Outer | OuterOk(o, isConnect) && OuterText(o) == t
      ensures t != [] && Scan(Start(isConnect), t) != Dead && !InUrlPrefix(Scan(Start(isConnect), t))
    {
      OuterRead(o, isConnect);
      OuterNonempty(o, isConnect);
    }
    if t != [] && Scan(Start(isConnect), t) != Dead && !InUrlPrefix(Scan(Start(isConnect), t)) {
      var o := OuterFound(t, isConnect);
    }
  }

  lemma OuterNonempty(o: Outer, isConnect: bool)
    requires OuterOk(o, isConnect)
    ensures OuterText(o) != []
  {
    hide All, EndOk, IsServerText, Front;
  }
}
