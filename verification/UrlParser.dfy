/** http_parser_parse_url: where the parts of a URL lie in its text. */
module UrlParser {
  import opened Bytes
  import opened HttpTypes
  import opened HttpAct
  import opened HttpLength
  import opened UrlAutomaton
  import opened UrlText
  import opened UrlGrammar
  import opened UrlServer

  /** The last octet that belongs to a field: `old_uf`. */
  function LastLabel(labels: Labels): Option<UrlField> {
    if labels == [] then None
    else if labels[|labels| - 1].Some? then labels[|labels| - 1] else LastLabel(labels[..|labels| - 1])
  }

  lemma {:induction false} LastOccurs(labels: Labels)
    ensures LastLabel(labels).Some? ==> LastLabel(labels) in labels
    decreases |labels|
  {
    if labels != [] {
      LastOccurs(labels[..|labels| - 1]);
    }
  }

  lemma {:induction false} DeadStays(s: State, buf: seq<byte>, i: nat)
    requires i <= |buf| && Scan(s, buf[..i]) == Dead
    ensures Scan(s, buf) == Dead
    decreases |buf| - i
  {
    hide ParseUrlChar;
    if i == |buf| {
      assert buf[..i] == buf;
    } else {
      assert buf[..i + 1][..i] == buf[..i];
      DeadEnd(buf[i]);
      DeadStays(s, buf, i + 1);
    }
  }

  lemma {:induction false} HostDeadStays(s: HostState, buf: seq<byte>, i: nat)
    requires i <= |buf| && HostScan(s, buf[..i]) == HostDead
    ensures HostScan(s, buf) == HostDead
    decreases |buf| - i
  {
    hide ParseHostChar;
    if i == |buf| {
      assert buf[..i] == buf;
    } else {
      assert buf[..i + 1][..i] == buf[..i];
      DeadEnd(buf[i]);
      HostDeadStays(s, buf, i + 1);
    }
  }

  /** Comparing with `old_uf` is enough to know whether a field goes on or begins. */
  lemma UrlStep(s0: State, buf: seq<byte>, i: nat)
    requires (s0 == ReqServerStart || s0 == ReqSpacesBeforeUrl) && i < |buf| && Scan(s0, buf[..i + 1]) != Dead
    ensures var labels, l := UrlLabels(s0, buf[..i]), FieldOf(Scan(s0, buf[..i + 1]));
      var m := SpansOf(labels);
      && UrlLabels(s0, buf[..i + 1]) == labels + [l]
      && (l.Some? ==> (l.value in m <==> LastLabel(labels) == l))
      && LastLabel(labels + [l]) == (if l.Some? then l else LastLabel(labels))
      && (forall f :: f in m ==> m[f].len <= i)
  {
    hide ParseUrlChar, SpansOf, Behind, FieldOf, FieldRank, UrlRank;
    var a, b := buf[..i], buf[..i + 1];
    assert b[..i] == a && b[i] == buf[i];
    DeadEnd(buf[i]);
    UrlRun(s0, a);
    UrlRun(s0, b);
    var labels, l := UrlLabels(s0, a), FieldOf(Scan(s0, b));
    assert (labels + [l])[..i] == labels;
    UrlForward(Scan(s0, a), buf[i]);
    MarkedRanks(labels, l, Scan(s0, a), Scan(s0, b));
    CurrentIsLast(s0, a);
    LastOccurs(labels);
    if l.Some? {
      SpansOccur(labels, l.value);
    }
    assert forall f :: f in SpansOf(labels) ==> Marked(labels, f, SpansOf(labels)[f]);
  }

  lemma ScanStep(s: State, buf: seq<byte>, i: nat)
    requires i < |buf|
    ensures Scan(s, buf[..i + 1]) == ParseUrlChar(Scan(s, buf[..i]), buf[i])
    ensures FoundAt(s, buf[..i + 1]) <==> FoundAt(s, buf[..i]) || Scan(s, buf[..i + 1]).ReqServerWithAt?
  {
    hide ParseUrlChar;
    assert buf[..i + 1][..i] == buf[..i];
  }

  lemma AtStart(s: State)
    ensures Scan(s, []) == s && UrlLabels(s, []) == [] && LastLabel([]) == None && SpansOf([]) == map[] && !FoundAt(s, [])
  {
  }

  lemma CurrentIsLast(s: State, buf: seq<byte>)
    requires s == ReqServerStart || s == ReqSpacesBeforeUrl
    ensures FieldOf(Scan(s, buf)).Some? ==> LastLabel(UrlLabels(s, buf)) == FieldOf(Scan(s, buf))
  {
    hide ParseUrlChar;
  }

  lemma MatchedLengths(labels: Labels)
    requires Matches(labels, SpansOf(labels))
    ensures forall f :: f in SpansOf(labels) ==> SpansOf(labels)[f].len <= |labels|
  {
    hide SpansOf;
    assert forall f :: f in SpansOf(labels) ==> Marked(labels, f, SpansOf(labels)[f]);
  }

  /** Comparing with the previous state is enough to know whether a field of the server part goes on or begins. */
  lemma HostStep(b: HostState, off: nat, text: seq<byte>, k: nat)
    requires (b == UserinfoStart || b == HostStart) && k < |text| && HostScan(b, text[..k + 1]) != HostDead
    ensures var labels, s, t := Gap(off) + HostLabels(b, text[..k]), HostScan(b, text[..k]), HostScan(b, text[..k + 1]);
      var m := SpansOf(labels);
      && Gap(off) + HostLabels(b, text[..k + 1]) == labels + [HostFieldOf(t)]
      && (t.InHost? ==> (Host in m <==> s.InHost?)) && (t.InV6? ==> (Host in m <==> s.InV6?))
      && (t.ZoneStart? || t.InZone? ==> Host in m)
      && (t.InPort? ==> (Port in m <==> s.InPort?)) && (t.InUserinfo? ==> (Userinfo in m <==> s.InUserinfo?))
      && (forall f :: f in m ==> m[f].len <= off + k)
  {
    hide ParseHostChar, SpansOf, Behind, HostFieldRank, HostRank, Matches, Marked;
    var a, c := text[..k], text[..k + 1];
    assert c[..k] == a && c[k] == text[k];
    DeadEnd(text[k]);
    HostRun(b, off, a);
    HostRun(b, off, c);
    HostSeen(b, off, a);
    var labels, s, t := Gap(off) + HostLabels(b, a), HostScan(b, a), HostScan(b, c);
    HostForward(s, text[k]);
    HostMarkedRanks(labels, HostFieldOf(t), s, t);
    MatchedLengths(labels);
  }

  /** `field_data` while the server part is split: the host is there from the start, still empty. */
  function Mixed(base: map<UrlField, Span>, hm: map<UrlField, Span>, off: nat): map<UrlField, Span> {
    (base - {Host}) + map[Host := Span(off, 0)] + hm
  }

  lemma MixedEnds(base: map<UrlField, Span>, hm: map<UrlField, Span>, off: nat)
    ensures Host in hm ==> Mixed(base, hm, off) == (base - {Host}) + hm
    ensures Host in base && hm == map[] ==> Mixed(base, hm, off) == base[Host := Span(off, 0)]
  {
  }

  /** The conversion loop for the port: the digits' value, or a refusal as soon as it exceeds 16 bits. */
  method ReadPort(digits: seq<byte>) returns (ok: bool, v: nat)
    requires IsDecimal(digits)
    ensures ok <==> DecimalFrom(0, digits) <= 0xffff
    ensures ok ==> v == DecimalFrom(0, digits)
  {
    v := 0;
    var i := 0;
    assert digits[0..] == digits;
    while i < |digits|
      invariant 0 <= i <= |digits| && v <= 0xffff
      invariant DecimalFrom(v, digits[i..]) == DecimalFrom(0, digits)
    {
      assert digits[i..][0] == digits[i] && digits[i..][1..] == digits[i + 1..];
      v := v * 10;
      v := v + (digits[i] - '0' as int);
      if v > 0xffff {
        return false, v;
      }
      i := i + 1;
    }
    ok := true;
  }

  lemma HostMeans(buf: seq<byte>, isConnect: bool, foundAt: bool, h: Span)
    requires foundAt == FoundAt(Start(isConnect), buf)
    ensures HostOk(buf, isConnect, h) == HostDone(HostScan(HostBegin(foundAt), Text(buf, h)))
    ensures HostSpans(buf, isConnect, h) == SpansOf(Gap(h.off) + HostLabels(HostBegin(foundAt), Text(buf, h)))
  {
  }

  lemma {:induction false} PortLabel(s: HostState, text: seq<byte>, i: nat)
    requires i < |text| && HostLabels(s, text)[i] == Some(Port)
    ensures IsNum(text[i])
    decreases |text|
  {
    hide ParseHostChar, IsNum;
    var init := text[..|text| - 1];
    if i == |text| - 1 {
      HostForward(HostScan(s, init), text[i]);
    } else {
      PortLabel(s, init, i);
    }
  }

  /** A port lies inside the server part, where the host automaton labelled it. */
  lemma PortInside(buf: seq<byte>, isConnect: bool)
    requires Splits(buf, isConnect) && Port in AllSpans(buf, isConnect)
    ensures var u, span := UrlSpans(buf, isConnect), AllSpans(buf, isConnect)[Port];
      && Host in u && u[Host].off <= span.off && span.off + span.len <= u[Host].off + u[Host].len <= |buf|
      && Marked(Gap(u[Host].off) + HostLabels(HostBegin(FoundAt(Start(isConnect), buf)), Text(buf, u[Host])), Port, span)
  {
    hide SpansOf, Behind, HostLabels, FoundAt, HostScan, Gap, Scan, UrlSpans, Ranked, HostSpans;
    UrlInside(buf, isConnect);
    var h := UrlSpans(buf, isConnect)[Host];
    HostInside(buf, isConnect, h);
    HostMeans(buf, isConnect, FoundAt(Start(isConnect), buf), h);
    HostRun(HostBegin(FoundAt(Start(isConnect), buf)), h.off, Text(buf, h));
  }

  /** The port consists of digits. */
  lemma PortDigits(buf: seq<byte>, isConnect: bool)
    requires Splits(buf, isConnect) && Port in AllSpans(buf, isConnect)
    ensures var span := AllSpans(buf, isConnect)[Port];
      && span.off + span.len <= |buf| && IsDecimal(Text(buf, span))
      && Decimal(Text(buf, span)) == DecimalFrom(0, Text(buf, span))
  {
    hide HostLabels, FoundAt, IsNum, DecimalFrom, Gap, UrlSpans, AllSpans, Splits;
    PortInside(buf, isConnect);
    var h, span := UrlSpans(buf, isConnect)[Host], AllSpans(buf, isConnect)[Port];
    var s, text := HostBegin(FoundAt(Start(isConnect), buf)), Text(buf, h);
    var labels := Gap(h.off) + HostLabels(s, text);
    forall i | 0 <= i < span.len ensures IsNum(Text(buf, span)[i]) {
      var j := span.off + i - h.off;
      assert labels[span.off + i] == HostLabels(s, text)[j];
      PortLabel(s, text, j);
      assert text[j] == Text(buf, span)[i];
    }
  }

  /** The parts of an accepted URL are what is found of it. */
  lemma PartsFound(buf: seq<byte>, isConnect: bool)
    ensures forall u: UrlParts :: IsAccepted(u, isConnect) && TextOf(u) == buf ==>
      && Accepts(buf, isConnect) && AllSpans(buf, isConnect) == Pieces(u)
      && PortOf(u) == if Port in Pieces(u) then Decimal(Text(buf, Pieces(u)[Port])) else 0
  {
    hide Splits, AllSpans, TextOf, Pieces, PortOf, Accepts, Decimal, Text, Admissible, ServerOk, All, EndOk;
    forall u: UrlParts | IsAccepted(u, isConnect) && TextOf(u) == buf
      ensures Accepts(buf, isConnect) && AllSpans(buf, isConnect) == Pieces(u)
      ensures PortOf(u) == if Port in Pieces(u) then Decimal(Text(buf, Pieces(u)[Port])) else 0
    {
      TextSplits(u, isConnect);
      PortValue(u, isConnect);
      AdmissibleExact(u, isConnect);
    }
  }

  class HttpParserUrl {
    /** `field_set` and, for the fields in it, `field_data`. */
    var fields: map<UrlField, Span>
    var port: nat

    /** http_parser_url_init */
    constructor ()
      ensures fields == map[] && port == 0
    {
      fields, port := map[], 0;
    }

    /** The first loop of http_parser_parse_url. */
    method SplitFields(buf: seq<byte>, isConnect: bool) returns (status: nat, foundAt: bool)
      requires |buf| <= 0xffff && fields == map[]
      modifies this`fields
      ensures status == if Scan(Start(isConnect), buf) == Dead then 1 else 0
      ensures status == 0 ==> fields == UrlSpans(buf, isConnect) && foundAt == FoundAt(Start(isConnect), buf)
    {
      hide ParseUrlChar, SpansOf, FieldOf, Matches, UrlLabels, LastLabel, Scan, FoundAt;
      ghost var s0 := Start(isConnect);
      var s, oldUf: Option<UrlField>, i := Start(isConnect), None, 0;
      foundAt := false;
      AtStart(s0);
      assert buf[..0] == [];
      while i < |buf|
        invariant 0 <= i <= |buf| && s == Scan(s0, buf[..i]) && s != Dead
        invariant fields == SpansOf(UrlLabels(s0, buf[..i])) && oldUf == LastLabel(UrlLabels(s0, buf[..i]))
        invariant foundAt == FoundAt(s0, buf[..i])
      {
        ScanStep(s0, buf, i);
        s := ParseUrlChar(s, buf[i]);
        if s == Dead {
          DeadStays(s0, buf, i + 1);
          return 1, foundAt;
        }
        UrlStep(s0, buf, i);
        SpansSnoc(UrlLabels(s0, buf[..i]), FieldOf(s));
        foundAt := foundAt || s.ReqServerWithAt?;
        var uf := FieldOf(s);
        if uf.Some? {
          if uf == oldUf {
            fields := fields[uf.value := Span(fields[uf.value].off, U16(fields[uf.value].len + 1))];
          } else {
            fields := fields[uf.value := Span(U16(i), 1)];
            oldUf := uf;
          }
        }
        i := i + 1;
      }
      assert buf[..i] == buf;
      status := 0;
    }

    /** The field that octet `p` belongs to begins, unless the previous octet belonged to it already; and it grows. */
    method Grow(f: UrlField, p: nat, begins: bool)
      requires p <= 0xffff && (!begins ==> f in fields && fields[f].len < 0xffff)
      modifies this`fields
      ensures fields == old(fields)[f := if begins then Span(p, 1) else Span(old(fields)[f].off, old(fields)[f].len + 1)]
    {
      if begins {
        fields := fields[f := Span(U16(p), 0)];
      }
      fields := fields[f := Span(fields[f].off, U16(fields[f].len + 1))];
    }

    /** The switch of http_parse_host, for an octet that led from state `s` to state `t`. */
    method HostOctet(s: HostState, t: HostState, p: nat, ghost labels: Labels, ghost base: map<UrlField, Span>, ghost off: nat)
      requires p < 0xffff && |labels| == p && fields == Mixed(base, SpansOf(labels), off)
      requires Host in base && Port !in base && Userinfo !in base
      requires var m := SpansOf(labels);
        && (t.InHost? ==> (Host in m <==> s.InHost?)) && (t.InV6? ==> (Host in m <==> s.InV6?))
        && (t.ZoneStart? || t.InZone? ==> Host in m)
        && (t.InPort? ==> (Port in m <==> s.InPort?)) && (t.InUserinfo? ==> (Userinfo in m <==> s.InUserinfo?))
        && (forall f :: f in m ==> m[f].len <= p)
      modifies this`fields
      ensures fields == Mixed(base, SpansOf(labels + [HostFieldOf(t)]), off)
    {
      hide SpansOf;
      SpansSnoc(labels, HostFieldOf(t));
      if t.InHost? {
        Grow(Host, p, !s.InHost?);
      } else if t.InV6? {
        Grow(Host, p, !s.InV6?);
      } else if t.ZoneStart? || t.InZone? {
        Grow(Host, p, false);
      } else if t.InPort? {
        Grow(Port, p, !s.InPort?);
      } else if t.InUserinfo? {
        Grow(Userinfo, p, !s.InUserinfo?);
      }
    }

    /** http_parse_host */
    method ParseHost(buf: seq<byte>, foundAt: bool) returns (status: nat)
      requires Host in fields && Port !in fields && Userinfo !in fields
      requires fields[Host].off + fields[Host].len <= |buf| <= 0xffff
      modifies this`fields
      ensures var h, b := old(fields)[Host], HostBegin(foundAt);
        && status == (if HostDone(HostScan(b, Text(buf, h))) then 0 else 1)
        && (status == 0 ==> fields == (old(fields) - {Host}) + SpansOf(Gap(h.off) + HostLabels(b, Text(buf, h))))
    {
      hide ParseHostChar, SpansOf, Mixed, HostFieldOf;
      var h := fields[Host];
      var end := h.off + h.len;
      fields := fields[Host := Span(h.off, 0)];
      var s, p := HostBegin(foundAt), h.off;
      ghost var b, text := HostBegin(foundAt), Text(buf, h);
      GapMatches(h.off);
      assert Gap(h.off) + HostLabels(b, text[..0]) == Gap(h.off);
      MixedEnds(old(fields), map[], h.off);
      while p < end
        invariant h.off <= p <= end && s == HostScan(b, text[..p - h.off]) && s != HostDead
        invariant fields == Mixed(old(fields), SpansOf(Gap(h.off) + HostLabels(b, text[..p - h.off])), h.off)
      {
        ghost var k := p - h.off;
        assert text[..k + 1][..k] == text[..k] && text[k] == buf[p];
        var t := ParseHostChar(s, buf[p]);
        if t == HostDead {
          HostDeadStays(b, text, k + 1);
          return 1;
        }
        HostStep(b, h.off, text, k);
        HostOctet(s, t, p, Gap(h.off) + HostLabels(b, text[..k]), old(fields), h.off);
        s := t;
        p := p + 1;
      }
      assert text[..p - h.off] == text;
      if HostDone(s) {
        HostSeen(b, h.off, text);
        MixedEnds(old(fields), SpansOf(Gap(h.off) + HostLabels(b, text)), h.off);
        return 0;
      }
      return 1;
    }

    /** The fields of a URL: the first loop, and http_parse_host. */
    method FindFields(buf: seq<byte>, isConnect: bool) returns (status: nat)
      requires |buf| <= 0xffff
      modifies this`fields
      ensures status == if Splits(buf, isConnect) then 0 else 1
      ensures status == 0 ==> fields == AllSpans(buf, isConnect)
    {
      hide UrlSpans, HostScan, Scan, HostSpans, FoundAt, HostDone, Ranked;
      if |buf| == 0 {
        return 1;
      }
      fields := map[];
      var split, foundAt := SplitFields(buf, isConnect);
      if split != 0 {
        return 1;
      }
      UrlInside(buf, isConnect);
      if Schema in fields && Host !in fields {
        return 1;
      }
      if Host in fields {
        HostMeans(buf, isConnect, foundAt, fields[Host]);
        status := ParseHost(buf, foundAt);
        return status;
      }
      return 0;
    }

    /** http_parser_parse_url: accepts exactly the texts of URLs with a port of 16 bits, for CONNECT those of a host and a
        port, and finds exactly the pieces that the text is put together from. */
    method ParseUrl(buf: seq<byte>, isConnect: bool) returns (status: nat)
      requires |buf| <= 0xffff
      modifies this
      ensures status == if Accepts(buf, isConnect) then 0 else 1
      ensures status == 0 ==> fields == AllSpans(buf, isConnect)
      ensures status == 0 ==> port == (if Port in fields then Decimal(Text(buf, fields[Port])) else 0) && port <= 0xffff
      ensures status == 0 <==> exists u: UrlParts :: IsAccepted(u, isConnect) && TextOf(u) == buf
      ensures forall u: UrlParts :: IsAccepted(u, isConnect) && TextOf(u) == buf ==> fields == Pieces(u) && port == PortOf(u)
    {
      hide Splits, AllSpans, DecimalFrom, IsDecimal, Text, IsAccepted, TextOf, Pieces, PortOf;
      AcceptsExact(buf, isConnect);
      PartsFound(buf, isConnect);
      port := 0;
      status := FindFields(buf, isConnect);
      if status != 0 {
        return 1;
      }
      if isConnect && fields.Keys != {Host, Port} {
        return 1;
      }
      if Port in fields {
        PortDigits(buf, isConnect);
        var ok, v := ReadPort(Text(buf, fields[Port]));
        if !ok {
          return 1;
        }
        port := U16(v);
      }
    }
  }
}
