/** Comma-separated lists in header values: their elements, and the blanks around them. */
module HttpLists {
  import opened Bytes

  predicate IsBlank(c: byte) {
    c == SP || c == HT
  }

  /** What follows the last comma. */
  function LastElement(s: seq<byte>): seq<byte> {
    if s == [] || s[|s| - 1] == ',' as int then [] else LastElement(s[..|s| - 1]) + [s[|s| - 1]]
  }

  function TrimLeft(s: seq<byte>): seq<byte> {
    if s != [] && IsBlank(s[0]) then TrimLeft(s[1..]) else s
  }

  function TrimRight(s: seq<byte>): seq<byte> {
    if s != [] && IsBlank(s[|s| - 1]) then TrimRight(s[..|s| - 1]) else s
  }

  /** What the matcher skips in front of an element: white space and, because it lower-cases to a space, NUL. */
  predicate IsSkipped(c: byte) {
    IsBlank(c) || c == NUL
  }

  function Leading(s: seq<byte>): seq<byte> {
    if s != [] && IsSkipped(s[0]) then [s[0]] + Leading(s[1..]) else []
  }

  function Core(s: seq<byte>): seq<byte> {
    if s != [] && IsSkipped(s[0]) then Core(s[1..]) else s
  }

  lemma LastSnoc(p: seq<byte>, c: byte)
    ensures LastElement(p + [c]) == if c == ',' as int then [] else LastElement(p) + [c]
  {
    assert (p + [c])[..|p|] == p;
  }

  lemma {:induction false} CoreSnoc(s: seq<byte>, c: byte)
    ensures Core(s + [c]) == if Core(s) != [] then Core(s) + [c] else if IsSkipped(c) then [] else [c]
    ensures Leading(s + [c]) == if Core(s) == [] && IsSkipped(c) then Leading(s) + [c] else Leading(s)
    decreases |s|
  {
    if s == [] {
      assert s + [c] == [c] && [c][1..] == [];
    } else {
      assert (s + [c])[0] == s[0] && (s + [c])[1..] == s[1..] + [c];
      if IsSkipped(s[0]) {
        CoreSnoc(s[1..], c);
      }
    }
  }

  lemma OneOctet(c: byte)
    requires c != ',' as int && !IsSkipped(c)
    ensures LastElement([c]) == [c] && Core([c]) == [c] && Leading([c]) == []
  {
    LastSnoc([], c);
    assert [] + [c] == [c];
  }

  lemma {:induction false} TrimIsCore(s: seq<byte>)
    ensures if NUL in Leading(s) then TrimLeft(s) != [] && TrimLeft(s)[0] == NUL else TrimLeft(s) == Core(s)
    decreases |s|
  {
    if s != [] && IsBlank(s[0]) {
      TrimIsCore(s[1..]);
    }
  }

  lemma {:induction false} TrimKeepsFirst(s: seq<byte>)
    requires s != [] && !IsBlank(s[0])
    ensures TrimRight(s) != [] && TrimRight(s)[0] == s[0]
    decreases |s|
  {
    if IsBlank(s[|s| - 1]) {
      TrimKeepsFirst(s[..|s| - 1]);
    }
  }

  lemma {:induction false} LastWhole(s: seq<byte>)
    requires ',' as int !in s
    ensures LastElement(s) == s
    decreases |s|
  {
    if s != [] {
      assert s[|s| - 1] in s;
      LastWhole(s[..|s| - 1]);
    }
  }

  lemma {:induction false} LastBehind(p: seq<byte>, s: seq<byte>)
    ensures LastElement(p + [',' as int] + s) == LastElement(s)
    decreases |s|
  {
    if s == [] {
      LastSnoc(p, ',' as int);
      assert p + [',' as int] + [] == p + [',' as int];
    } else {
      var init, c := s[..|s| - 1], s[|s| - 1];
      LastBehind(p, init);
      LastSnoc(p + [',' as int] + init, c);
      assert p + [',' as int] + s == p + [',' as int] + init + [c];
    }
  }

  // ---------- spellings ----------

  /** A literal that list elements are compared with: lower-case letters and hyphens. */
  predicate IsLiteral(l: string) {
    l != "" && forall i :: 0 <= i < |l| ==> 'a' <= l[i] <= 'z' || l[i] == '-'
  }

  /** `s` spells the beginning of `l`, in any case. */
  predicate Begins(s: seq<byte>, l: string) {
    |s| <= |l| && forall i :: 0 <= i < |s| ==> Lower(s[i]) == l[i] as int
  }

  /** The last element of a list, without the white space around it, is `l` in any case. */
  predicate LastElementIs(value: seq<byte>, l: string) {
    var e := TrimRight(TrimLeft(LastElement(value)));
    |e| == |l| && Begins(e, l)
  }

  lemma NotLetter()
    ensures Lower(',' as int) == ',' as int && Lower(SP) == SP && Lower(HT) == ')' as int && Lower(NUL) == SP
  {
  }

  lemma BeginsMore(l: string, e: seq<byte>, c: byte)
    requires IsLiteral(l) && Begins(e, l) && |e| < |l| && Lower(c) == l[|e|] as int
    ensures Begins(e + [c], l) && c != ',' as int && !IsSkipped(c)
  {
    hide Lower;
    NotLetter();
  }

  /** A spelling with spaces behind it. */
  predicate BeginsPadded(e: seq<byte>, l: string) {
    |e| >= |l| && Begins(e[..|l|], l) && forall i :: |l| <= i < |e| ==> e[i] == SP
  }

  lemma {:induction false} TrimSpaces(l: string, e: seq<byte>)
    requires IsLiteral(l) && BeginsPadded(e, l)
    ensures TrimRight(e) == e[..|l|]
    decreases |e|
  {
    hide Lower;
    if |e| == |l| {
      assert e[..|l|] == e;
      NotLetter();
      assert Lower(e[|l| - 1]) == l[|l| - 1] as int;
    } else {
      var init := e[..|e| - 1];
      assert init[..|l|] == e[..|l|];
      TrimSpaces(l, init);
    }
  }

  // ---------- lists in the eyes of the matcher ----------

  /** The proper beginning of a literal. */
  predicate Stem(e: seq<byte>, l: string) {
    |e| < |l| && Begins(e, l)
  }

  /** The end of the element that begins `s`. */
  function Comma(s: seq<byte>): (i: nat)
    ensures i <= |s| && ',' as int !in s[..i] && (i < |s| ==> s[i] == ',' as int)
  {
    if s == [] || s[0] == ',' as int then 0 else
      var i := Comma(s[1..]);
      assert s[..i + 1] == [s[0]] + s[1..][..i];
      i + 1
  }

  function DropSpaces(e: seq<byte>): seq<byte> {
    if e != [] && e[0] == SP then DropSpaces(e[1..]) else e
  }

  /** The octet, lower-cased as the matcher does it, may begin a token. */
  predicate Opens(c: byte) {
    Token(Lower(c)) != 0
  }

  lemma NoTokens()
    ensures Token(',' as int) == 0 && Token(SP) == 0
  {
  }

  lemma CommaOpensNothing()
    ensures !Opens(',' as int) && !Opens(SP)
  {
  }

  lemma BeginsSnoc(p: seq<byte>, c: byte, l: string)
    ensures Begins(p + [c], l) <==> Begins(p, l) && |p| < |l| && Lower(c) == LiteralAt(l, |p|)
  {
    hide Lower;
    if Begins(p + [c], l) {
      assert forall i :: 0 <= i < |p| ==> (p + [c])[i] == p[i];
      assert (p + [c])[|p|] == c;
    }
  }

  lemma {:induction false} DropSnoc(p: seq<byte>, c: byte)
    ensures DropSpaces(p + [c]) == if DropSpaces(p) != [] then DropSpaces(p) + [c] else if c == SP then [] else [c]
    decreases |p|
  {
    if p == [] {
      assert p + [c] == [c] && [c][1..] == [];
    } else {
      assert (p + [c])[0] == p[0] && (p + [c])[1..] == p[1..] + [c];
      if p[0] == SP {
        DropSnoc(p[1..], c);
      }
    }
  }

  lemma PaddedSnoc(q: seq<byte>, c: byte, l: string)
    requires IsLiteral(l)
    ensures BeginsPadded(q + [c], l) <==> (BeginsPadded(q, l) && c == SP) || (|q| + 1 == |l| && Begins(q + [c], l))
  {
    hide Begins;
    if |q| >= |l| {
      assert (q + [c])[..|l|] == q[..|l|];
      assert forall i :: 0 <= i < |q| ==> (q + [c])[i] == q[i];
      if BeginsPadded(q + [c], l) {
        assert (q + [c])[|q|] == c;
        assert forall i :: |l| <= i < |q| ==> q[i] == (q + [c])[i];
      }
    } else if |q| + 1 == |l| {
      assert (q + [c])[..|l|] == q + [c];
    }
  }

  /** A literal that begins with a letter can begin an element. */
  lemma PaddedOpens(q: seq<byte>, l: string)
    requires IsLiteral(l) && BeginsPadded(q, l)
    ensures q != [] && Opens(q[0]) && !IsBlank(q[0])
  {
    assert q[..|l|][0] == q[0];
    LetterOpens(q[0], l);
  }

  lemma LetterOpens(c: byte, l: string)
    requires IsLiteral(l) && Lower(c) == l[0] as int
    ensures Opens(c) && !IsBlank(c)
  {
    NotLetter();
    hide Lower;
  }

  lemma {:induction false} CommaAt(e: seq<byte>, rest: seq<byte>)
    requires ',' as int !in e
    ensures Comma(e + [',' as int] + rest) == |e| && Comma(e) == |e|
    decreases |e|
  {
    var s := e + [',' as int] + rest;
    if e != [] {
      CommaAt(e[1..], rest);
      assert s[1..] == e[1..] + [',' as int] + rest;
    }
  }

  lemma CutAt(s: seq<byte>, i: nat)
    requires i < |s|
    ensures s == s[..i] + [s[i]] + s[i + 1..]
  {
  }

  /** `s` up to its first comma, the comma, and what follows it. */
  lemma CommaCuts(s: seq<byte>)
    ensures var i := Comma(s); if i == |s| then s[..i] == s else s == s[..i] + [',' as int] + s[i + 1..]
  {
    hide Comma;
    var i := Comma(s);
    if i == |s| {
      assert s[..i] == s;
    } else {
      CutAt(s, i);
    }
  }

  // ---------- what a list says ----------

  /** A list element ends before octet `i`. */
  predicate ElementEnd(v: seq<byte>, i: nat) {
    i <= |v| && (i == |v| || v[i] == ',' as int)
  }

  /** One of the elements of the list is the literal, in any case. */
  ghost predicate Lists(v: seq<byte>, l: string) {
    exists i: nat :: ElementEnd(v, i) && LastElementIs(v[..i], l)
  }

  lemma {:induction false} TrimDropped(e: seq<byte>)
    requires DropSpaces(e) != [] && !IsBlank(DropSpaces(e)[0])
    ensures TrimLeft(e) == DropSpaces(e)
    decreases |e|
  {
    if e[0] == SP {
      TrimDropped(e[1..]);
    }
  }

  /** An element that is the literal between spaces is the last element of the list up to its end. */
  lemma PaddedElement(e: seq<byte>, l: string)
    requires IsLiteral(l) && ',' as int !in e && BeginsPadded(DropSpaces(e), l)
    ensures LastElementIs(e, l)
  {
    hide DropSpaces, TrimLeft, TrimRight, LastElement, Opens, IsLiteral;
    PaddedOpens(DropSpaces(e), l);
    TrimDropped(e);
    LastWhole(e);
    TrimSpaces(l, DropSpaces(e));
  }

  lemma LastBehindIs(p: seq<byte>, s: seq<byte>, l: string)
    ensures LastElementIs(p + [',' as int] + s, l) <==> LastElementIs(s, l)
  {
    hide TrimLeft, TrimRight, LastElement, Begins;
    LastBehind(p, s);
  }

  lemma ListsBehind(p: seq<byte>, s: seq<byte>, l: string)
    requires Lists(s, l)
    ensures Lists(p + [',' as int] + s, l)
  {
    hide LastElementIs;
    var i: nat :| ElementEnd(s, i) && LastElementIs(s[..i], l);
    var v := p + [',' as int] + s;
    LastBehindIs(p, s[..i], l);
    assert v[..|p| + 1 + i] == p + [',' as int] + s[..i] && ElementEnd(v, |p| + 1 + i);
  }

  lemma ListsHere(e: seq<byte>, v: seq<byte>, l: string)
    requires LastElementIs(e, l) && |e| <= |v| && v[..|e|] == e && ElementEnd(v, |e|)
    ensures Lists(v, l)
  {
    hide LastElementIs;
  }

  // ---------- lists as they are written ----------

  predicate Is(e: seq<byte>, l: string) {
    |e| == |l| && Begins(e, l)
  }

  /** `e1, e2, ..., en` */
  function ListText(es: seq<seq<byte>>): seq<byte> {
    if es == [] then [] else if |es| == 1 then es[0] else es[0] + [',' as int, SP] + ListText(es[1..])
  }

  lemma UnpaddedIs(e: seq<byte>, l: string)
    requires SP !in e
    ensures BeginsPadded(e, l) <==> Is(e, l)
  {
    hide Begins;
    if |e| > |l| {
      assert e[|l|] in e;
    } else if |e| == |l| {
      assert e[..|l|] == e;
    }
  }

  /** A space in front of an element moves its comma. */
  lemma CommaSpace(s: seq<byte>)
    ensures var t, i := [SP] + s, Comma(s);
      && Comma(t) == i + 1 && DropSpaces(t[..i + 1]) == DropSpaces(s[..i])
      && (i < |s| ==> t[i + 2..] == s[i + 1..])
  {
    var t, i := [SP] + s, Comma(s);
    assert t[1..] == s;
    assert t[..i + 1] == [SP] + s[..i] && ([SP] + s[..i])[1..] == s[..i];
  }
}
