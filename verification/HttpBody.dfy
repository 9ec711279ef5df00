/** Bodies framed by Content-Length, over any number of calls: nothing is lost, nothing is added. */
module HttpBody {
  import opened Bytes
  import opened HttpTypes
  import opened HttpAct
  import opened HttpMachine
  import opened HttpRuns
  import opened HttpChunked

  /** The parser is inside a body with `left` octets to come, between two calls. */
  predicate Awaiting(m: Machine, left: nat) {
    Alive(m) && m.st.state == BodyIdentity && m.mark == Closed && m.st.contentLength == left && 0 < left < ULLONG_MAX
  }

  /** One callback for each piece. */
  function Deliveries(pieces: seq<seq<byte>>): seq<Event> {
    if pieces == [] then [] else [Data(Body, pieces[0])] + Deliveries(pieces[1..])
  }

  lemma FeedPart(m: Machine, left: nat, piece: seq<byte>)
    requires Awaiting(m, left) && 0 < |piece| < left
    ensures Awaiting(Feed(m, piece), left - |piece|)
    ensures Feed(m, piece) == m.(st := m.st.(contentLength := left - |piece|), consumed := m.consumed + |piece|,
                                 log := m.log + [Data(Body, piece)])
  {
    hide Run;
    assert Begin(m) == m;
    RunIdentity(m, piece);
    assert [] + piece == piece;
  }

  /** The rest of a body: one delivery, one completion. */
  lemma RunRest(m: Machine, left: nat, rest: seq<byte>)
    requires Awaiting(m, left) && |rest| == left
    ensures Run(m, rest) == m.(st := MessageOver(m.st), consumed := m.consumed + left, exited := m.st.upgrade,
                               log := m.log + [Data(Body, rest), MessageComplete])
  {
    hide Act, ByteStep, Run, MessageOver;
    var k := left - 1;
    var init := rest[..k];
    assert rest == init + [rest[k]];
    RunSnoc(m, init, rest[k]);
    if init == [] {
      RunConcat(m, [], []);
      RunEmpty(m);
      assert [rest[k]] == rest;
      StepLast(m, rest[k]);
    } else {
      RunIdentity(m, init);
      StepLast(Run(m, init), rest[k]);
      OverSame(m.st, 1);
      assert [] + init == init;
    }
  }

  lemma OverSame(st: Parser, n: nat)
    ensures MessageOver(st.(contentLength := n)) == MessageOver(st)
  {
  }

  lemma FeedRest(m: Machine, left: nat, piece: seq<byte>)
    requires Awaiting(m, left) && |piece| == left
    ensures Feed(m, piece) == m.(st := MessageOver(m.st), consumed := m.consumed + left, exited := m.st.upgrade,
                                 log := m.log + [Data(Body, piece), MessageComplete])
  {
    hide Run;
    assert Begin(m) == m;
    RunRest(m, left, piece);
  }

  /** Conservation over any sequence of calls: while the body lasts, what was delivered and what is
      left add up to the declared length, and no completion is announced; the call that delivers
      the last octet completes the message, once. */
  lemma {:induction false} IdentityConserved(m: Machine, left: nat, pieces: seq<seq<byte>>)
    requires Awaiting(m, left) && NonemptyPieces(pieces) && |Flatten(pieces)| <= left
    ensures var r := FeedAll(m, pieces);
      && r.consumed == m.consumed + |Flatten(pieces)|
      && if |Flatten(pieces)| < left then
           Awaiting(r, left - |Flatten(pieces)|) && r.log == m.log + Deliveries(pieces)
         else
           && r.st.contentLength == 0 && r.st.errno == OK && r.st.state == MessageOver(m.st).state
           && r.log == m.log + Deliveries(pieces) + [MessageComplete]
    decreases |pieces|
  {
    hide Feed, MessageOver;
    if pieces == [] {
      assert m.log + [] == m.log;
    } else {
      var p, rest := pieces[0], pieces[1..];
      assert |Flatten(pieces)| == |p| + |Flatten(rest)|;
      if |p| < left {
        FeedPart(m, left, p);
        IdentityConserved(Feed(m, p), left - |p|, rest);
        OverSame(m.st, left - |p|);
        assert m.log + [Data(Body, p)] + Deliveries(rest) == m.log + Deliveries(pieces);
      } else {
        NoMore(rest);
        FeedRest(m, left, p);
        OverCounts(m.st);
        assert pieces == [p] && Deliveries([]) == [];
        assert m.log + [Data(Body, p), MessageComplete] == m.log + ([Data(Body, p)] + []) + [MessageComplete];
      }
    }
  }

  lemma OverCounts(st: Parser)
    ensures MessageOver(st).contentLength == 0 && MessageOver(st).errno == st.errno
  {
  }

  lemma NoMore(pieces: seq<seq<byte>>)
    requires NonemptyPieces(pieces) && Flatten(pieces) == []
    ensures pieces == []
  {
  }

  /** The deliveries are the octets, in order. */
  lemma {:induction false} DeliveriesAreOctets(pieces: seq<seq<byte>>)
    ensures BodyOf(Deliveries(pieces)) == Flatten(pieces)
    decreases |pieces|
  {
    if pieces != [] {
      DeliveriesAreOctets(pieces[1..]);
      var d := Deliveries(pieces);
      assert d[0] == Data(Body, pieces[0]) && d[1..] == Deliveries(pieces[1..]);
    }
  }
}
