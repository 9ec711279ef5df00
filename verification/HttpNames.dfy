/** Which header names the octet-by-octet matcher recognises. */
module HttpNames {
  import opened Bytes
  import opened HttpTypes
  import opened HttpAct
  import opened HttpRuns

  const LENGTH_NAME := "content-length"
  const ENCODING_NAME := "transfer-encoding"
  const CONNECTION_NAME := "connection"
  const PROXY_NAME := "proxy-connection"
  const UPGRADE_NAME := "upgrade"

  /** `p` spells, but for case, the first |p| letters of `literal`. */
  predicate Spells(p: seq<byte>, literal: string) {
    0 < |p| <= |literal| && forall i :: 0 <= i < |p| ==> Token(p[i]) == LiteralAt(literal, i)
  }

  /** `name` begins, but for case, with "transfer-encoding". */
  predicate StartsLikeEncoding(name: seq<byte>) {
    |name| >= |ENCODING_NAME| && Spells(name[..|ENCODING_NAME|], ENCODING_NAME)
  }

  /** `name` is, but for case, "transfer-encoding". */
  predicate IsEncodingName(name: seq<byte>) {
    |name| == |ENCODING_NAME| && Spells(name, ENCODING_NAME)
  }

  /** `name` is, but for case, "upgrade". */
  predicate IsUpgradeName(name: seq<byte>) {
    |name| == |UPGRADE_NAME| && Spells(name, UPGRADE_NAME)
  }

  lemma EncodingNameStarts(name: seq<byte>)
    requires IsEncodingName(name)
    ensures StartsLikeEncoding(name)
  {
    hide Spells;
    assert name[..|ENCODING_NAME|] == name;
  }

  /** `name` is, but for case, "content-length". */
  predicate IsLengthName(name: seq<byte>) {
    |name| == |LENGTH_NAME| && Spells(name, LENGTH_NAME)
  }

  /** `name` is, but for case, "connection" or "proxy-connection". */
  predicate IsConnectionName(name: seq<byte>) {
    (|name| == |CONNECTION_NAME| && Spells(name, CONNECTION_NAME)) || (|name| == |PROXY_NAME| && Spells(name, PROXY_NAME))
  }

  /** What the matcher's state says about the name octets `p` read so far. */
  predicate LengthMatched(p: seq<byte>, m: Matcher) {
    var like := Spells(p, LENGTH_NAME);
    && (m.h.C? <==> like && |p| == 1)
    && (m.h.CO? <==> like && |p| == 2)
    && (m.h.CON? <==> like && |p| == 3)
    && (m.h.MatchingContentLength? <==> like && 4 <= |p| < |LENGTH_NAME|)
    && (m.h.ContentLength? <==> like && |p| == |LENGTH_NAME|)
    && (like && |p| < |LENGTH_NAME| ==> m.index == |p| - 1)
  }

  predicate EncodingMatched(p: seq<byte>, m: Matcher) {
    var like := Spells(p, ENCODING_NAME);
    && (m.h.MatchingTransferEncoding? <==> like && |p| < |ENCODING_NAME|)
    && (m.h.TransferEncoding? <==> like && |p| == |ENCODING_NAME|)
    && (like && |p| < |ENCODING_NAME| ==> m.index == |p| - 1)
  }

  predicate Matched(p: seq<byte>, te0: bool, n: NameScan) {
    && LengthMatched(p, n.m) && EncodingMatched(p, n.m)
    && (n.te <==> te0 || StartsLikeEncoding(p))
  }

  lemma SpellsMore(p: seq<byte>, c: byte, literal: string)
    requires p != []
    ensures Spells(p + [c], literal) <==>
      Spells(p, literal) && |p| < |literal| && Token(c) == LiteralAt(literal, |p|)
  {
    hide Token, LiteralAt;
    if Spells(p + [c], literal) {
      assert forall i :: 0 <= i < |p| ==> (p + [c])[i] == p[i];
      assert (p + [c])[|p|] == c;
    }
  }

  lemma FirstMatched(c: byte, te0: bool)
    requires Token(c) != 0
    ensures Matched([c], te0, NameScan(Matcher(FirstHeaderState(Token(c)), 0), te0))
  {
    hide Token;
    assert LiteralAt(LENGTH_NAME, 0) == 'c' as int && LiteralAt(ENCODING_NAME, 0) == 't' as int;
  }

  lemma LengthStep(p: seq<byte>, m: Matcher, c: byte)
    requires p != [] && LengthMatched(p, m)
    ensures LengthMatched(p + [c], NameOctet(m, Token(c)))
  {
    hide Token, Spells;
    SpellsMore(p, c, LENGTH_NAME);
    assert LiteralAt(LENGTH_NAME, 1) == 'o' as int && LiteralAt(LENGTH_NAME, 2) == 'n' as int
        && LiteralAt(LENGTH_NAME, 3) == 't' as int;
  }

  lemma EncodingStep(p: seq<byte>, m: Matcher, c: byte)
    requires p != [] && EncodingMatched(p, m)
    ensures EncodingMatched(p + [c], NameOctet(m, Token(c)))
  {
    hide Token, Spells;
    SpellsMore(p, c, ENCODING_NAME);
  }

  lemma StartStep(p: seq<byte>, c: byte)
    requires p != []
    ensures StartsLikeEncoding(p + [c]) <==>
      StartsLikeEncoding(p) || (Spells(p + [c], ENCODING_NAME) && |p| + 1 == |ENCODING_NAME|)
  {
    hide Spells;
    var k := |ENCODING_NAME|;
    if |p| >= k {
      assert (p + [c])[..k] == p[..k];
    } else if |p| + 1 == k {
      assert (p + [c])[..k] == p + [c];
    }
  }

  lemma MatchedStep(p: seq<byte>, te0: bool, n: NameScan, c: byte)
    requires p != [] && Matched(p, te0, n)
    ensures Matched(p + [c], te0, NameStep(n, c))
  {
    hide Token, Spells, NameOctet;
    LengthStep(p, n.m, c);
    EncodingStep(p, n.m, c);
    StartStep(p, c);
    SpellsMore(p, c, ENCODING_NAME);
  }

  /** The matcher recognises exactly the spellings of Content-Length, whatever their case; but it
      takes every name that merely begins with "transfer-encoding" for a use of that header. */
  lemma {:induction false} NameRecognised(name: seq<byte>, te0: bool)
    requires name != [] && AllTokens(name)
    ensures Matched(name, te0, NameSteps(NameScan(Matcher(FirstHeaderState(Token(name[0])), 0), te0), name[1..]))
    decreases |name|
  {
    hide Token, Matched, NameStep;
    var n0 := NameScan(Matcher(FirstHeaderState(Token(name[0])), 0), te0);
    if |name| == 1 {
      assert name == [name[0]];
      FirstMatched(name[0], te0);
    } else {
      var k := |name| - 1;
      var p := name[..k];
      NameRecognised(p, te0);
      assert p[1..] == name[1..k] && name[1..] == name[1..k] + [name[k]];
      NameStepsConcat(n0, name[1..k], [name[k]]);
      assert [name[k]][1..] == [];
      MatchedStep(p, te0, NameSteps(n0, p[1..]), name[k]);
      assert p + [name[k]] == name;
    }
  }

  // ---------- Connection ----------

  predicate ConnectionMatched(p: seq<byte>, m: Matcher) {
    var like, proxy := Spells(p, CONNECTION_NAME), Spells(p, PROXY_NAME);
    && (m.h.C? <==> like && |p| == 1)
    && (m.h.CO? <==> like && |p| == 2)
    && (m.h.CON? <==> like && |p| == 3)
    && (m.h.MatchingConnection? <==> like && 4 <= |p| < |CONNECTION_NAME|)
    && (m.h.MatchingProxyConnection? <==> proxy && |p| < |PROXY_NAME|)
    && (m.h.Connection? <==> (like && |p| == |CONNECTION_NAME|) || (proxy && |p| == |PROXY_NAME|))
    && (like && |p| < |CONNECTION_NAME| ==> m.index == |p| - 1)
    && (proxy && |p| < |PROXY_NAME| ==> m.index == |p| - 1)
  }

  lemma FirstConnection(c: byte)
    requires Token(c) != 0
    ensures ConnectionMatched([c], Matcher(FirstHeaderState(Token(c)), 0))
  {
    hide Token;
    assert LiteralAt(CONNECTION_NAME, 0) == 'c' as int && LiteralAt(PROXY_NAME, 0) == 'p' as int;
  }

  lemma OneName(p: seq<byte>)
    requires Spells(p, CONNECTION_NAME)
    ensures !Spells(p, PROXY_NAME)
  {
    hide Token;
    assert LiteralAt(CONNECTION_NAME, 0) == 'c' as int && LiteralAt(PROXY_NAME, 0) == 'p' as int;
  }

  lemma ConnectionStep(p: seq<byte>, m: Matcher, c: byte)
    requires p != [] && ConnectionMatched(p, m)
    ensures ConnectionMatched(p + [c], NameOctet(m, Token(c)))
  {
    hide Token, Spells;
    SpellsMore(p, c, CONNECTION_NAME);
    SpellsMore(p, c, PROXY_NAME);
    if Spells(p, CONNECTION_NAME) { OneName(p); }
    assert LiteralAt(CONNECTION_NAME, 1) == 'o' as int && LiteralAt(CONNECTION_NAME, 2) == 'n' as int
        && LiteralAt(CONNECTION_NAME, 3) == 'n' as int;
  }

  /** The matcher recognises exactly the spellings of Connection and Proxy-Connection. */
  lemma {:induction false} ConnectionRecognised(name: seq<byte>, te0: bool)
    requires name != [] && AllTokens(name)
    ensures ConnectionMatched(name, NameSteps(NameScan(Matcher(FirstHeaderState(Token(name[0])), 0), te0), name[1..]).m)
    decreases |name|
  {
    hide Token, ConnectionMatched, NameOctet;
    var n0 := NameScan(Matcher(FirstHeaderState(Token(name[0])), 0), te0);
    if |name| == 1 {
      assert name == [name[0]];
      FirstConnection(name[0]);
    } else {
      var k := |name| - 1;
      var p := name[..k];
      ConnectionRecognised(p, te0);
      assert p[1..] == name[1..k] && name[1..] == name[1..k] + [name[k]];
      NameStepsConcat(n0, name[1..k], [name[k]]);
      assert [name[k]][1..] == [];
      ConnectionStep(p, NameSteps(n0, p[1..]).m, name[k]);
      assert p + [name[k]] == name;
    }
  }

  // ---------- Upgrade ----------

  predicate UpgradeMatched(p: seq<byte>, m: Matcher) {
    var like := Spells(p, UPGRADE_NAME);
    && (m.h.MatchingUpgrade? <==> like && |p| < |UPGRADE_NAME|)
    && (m.h.Upgrade? <==> like && |p| == |UPGRADE_NAME|)
    && (like && |p| < |UPGRADE_NAME| ==> m.index == |p| - 1)
  }

  lemma FirstUpgrade(c: byte)
    requires Token(c) != 0
    ensures UpgradeMatched([c], Matcher(FirstHeaderState(Token(c)), 0))
  {
    hide Token;
    assert LiteralAt(UPGRADE_NAME, 0) == 'u' as int;
  }

  lemma UpgradeStep(p: seq<byte>, m: Matcher, c: byte)
    requires p != [] && UpgradeMatched(p, m)
    ensures UpgradeMatched(p + [c], NameOctet(m, Token(c)))
  {
    hide Token, Spells;
    SpellsMore(p, c, UPGRADE_NAME);
  }

  /** The matcher recognises exactly the spellings of Upgrade. */
  lemma {:induction false} UpgradeRecognised(name: seq<byte>, te0: bool)
    requires name != [] && AllTokens(name)
    ensures UpgradeMatched(name, NameSteps(NameScan(Matcher(FirstHeaderState(Token(name[0])), 0), te0), name[1..]).m)
    decreases |name|
  {
    hide Token, UpgradeMatched, NameOctet;
    var n0 := NameScan(Matcher(FirstHeaderState(Token(name[0])), 0), te0);
    if |name| == 1 {
      assert name == [name[0]];
      FirstUpgrade(name[0]);
    } else {
      var k := |name| - 1;
      var p := name[..k];
      UpgradeRecognised(p, te0);
      assert p[1..] == name[1..k] && name[1..] == name[1..k] + [name[k]];
      NameStepsConcat(n0, name[1..k], [name[k]]);
      assert [name[k]][1..] == [];
      UpgradeStep(p, NameSteps(n0, p[1..]).m, name[k]);
      assert p + [name[k]] == name;
    }
  }
}
