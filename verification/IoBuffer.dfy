/** The write side of a TCP connection: io_write and io_write_cb against a socket that may take all of
    the octets, some, or none. */
module IoBuffer {
  import opened Bytes

  /** What write(2) answers: a number of octets taken, EAGAIN or EINTR, or another error. */
  datatype Answer = Taken(n: nat) | Again | Broken

  /** The connection as far as its byte stream is concerned. `data` is base[head..tail), `wire` what the
      socket has taken so far, and `registered` says that EVENT_WRITE is in `events`. */
  datatype Conn = Conn(maxSize: nat, hasSocket: bool, closed: bool, head: nat, data: seq<byte>, registered: bool,
                       wire: seq<byte>)

  /** A call: io_write, or io_write_cb when the socket is ready. */
  datatype Op = Write(buf: seq<byte>, answer: Answer) | Ready(answer: Answer)

  /** The socket never takes more than it is offered. */
  predicate Possible(c: Conn, op: Op) {
    op.answer.Taken? ==> op.answer.n <= if op.Write? then |op.buf| else |c.data|
  }

  // ---------- what a call comes to, by its circumstances alone ----------

  /** Whether the socket is asked: only on an open connection, by io_write if nothing is buffered, by io_write_cb if
      something is. */
  predicate Asked(c: Conn, op: Op) {
    !c.closed && if op.Write? then c.data == [] && c.hasSocket else c.data != []
  }

  /** How many octets of what it is offered the socket takes in this call. */
  function Put(c: Conn, op: Op): nat {
    if Asked(c, op) && op.answer.Taken? then op.answer.n else 0
  }

  /** The socket is asked and answers with an error other than EAGAIN and EINTR. */
  predicate SocketFails(c: Conn, op: Op) {
    Asked(c, op) && op.answer.Broken?
  }

  /** The octets that io_write has to buffer: all of them behind others, otherwise those that the socket left. */
  function Unsent(c: Conn, op: Op): seq<byte>
    requires Possible(c, op)
  {
    if op.Ready? || c.closed || (c.data == [] && !c.hasSocket) || SocketFails(c, op) then [] else op.buf[Put(c, op)..]
  }

  /** They do not fit between `tail` and `maxSize`. */
  predicate NoRoom(c: Conn, op: Op)
    requires Possible(c, op)
  {
    Unsent(c, op) != [] && c.head + |c.data| + |Unsent(c, op)| > c.maxSize
  }

  /** io_write refuses its payload: the connection is closed or has no socket, the socket fails, or the payload does not
      fit behind what is buffered already. */
  predicate Refused(c: Conn, op: Op)
    requires op.Write? && Possible(c, op)
  {
    c.closed || (c.data == [] && !c.hasSocket) || SocketFails(c, op) || (c.data != [] && NoRoom(c, op))
  }

  // ---------- the calls ----------

  function Closed(c: Conn): Conn {
    c.(closed := true, hasSocket := false, registered := false)
  }

  /** buffer_append_data, and what its callers do with the outcome. */
  function Keep(c: Conn, kept: seq<byte>): Conn {
    if c.head + |c.data| + |kept| > c.maxSize then Closed(c)
    else c.(data := c.data + kept, registered := true)
  }

  function Written(c: Conn, buf: seq<byte>, answer: Answer): Conn
    requires answer.Taken? ==> answer.n <= |buf|
  {
    if c.closed then c
    else if c.data != [] then
      // the event is registered already
      if c.head + |c.data| + |buf| > c.maxSize then Closed(c) else c.(data := c.data + buf)
    else if !c.hasSocket then c
    else match answer
      case Broken => Closed(c)
      case Again => Keep(c, buf)
      case Taken(n) =>
        var sent := c.(wire := c.wire + buf[..n]);
        if n < |buf| then Keep(sent, buf[n..]) else sent
  }

  /** The return value of io_write. */
  function WriteResult(c: Conn, buf: seq<byte>, answer: Answer): int {
    if c.closed then -1
    else if c.data != [] then (if c.head + |c.data| + |buf| > c.maxSize then -1 else 0)
    else if !c.hasSocket then -1
    else match answer
      case Broken => -1
      case Again => 0
      case Taken(n) => n
  }

  function Drained(c: Conn, answer: Answer): Conn
    requires answer.Taken? ==> answer.n <= |c.data|
  {
    if c.closed || c.data == [] then c
    else match answer
      case Broken => Closed(c)
      case Again => c
      case Taken(n) =>
        var sent := c.(wire := c.wire + c.data[..n], data := c.data[n..]);
        if n == |c.data| then sent.(head := 0) else sent.(head := c.head + n)
  }

  function Step(c: Conn, op: Op): Conn
    requires Possible(c, op)
  {
    match op
    case Write(buf, answer) => Written(c, buf, answer)
    case Ready(answer) => Drained(c, answer)
  }

  // ---------- every run ----------

  predicate PossibleRun(c: Conn, ops: seq<Op>)
    decreases |ops|
  {
    ops == [] || (Possible(c, ops[0]) && PossibleRun(Step(c, ops[0]), ops[1..]))
  }

  function Run(c: Conn, ops: seq<Op>): Conn
    requires PossibleRun(c, ops)
    decreases |ops|
  {
    if ops == [] then c else Run(Step(c, ops[0]), ops[1..])
  }

  /** The payloads that io_write accepted, that is, answered without an error, in call order. */
  function Accepted(c: Conn, ops: seq<Op>): seq<byte>
    requires PossibleRun(c, ops)
    decreases |ops|
  {
    if ops == [] then []
    else
      (if ops[0].Write? && WriteResult(c, ops[0].buf, ops[0].answer) >= 0 then ops[0].buf else [])
      + Accepted(Step(c, ops[0]), ops[1..])
  }

  /** The buffer bounds, an empty buffer starts over, and unsent octets wait for the socket. */
  predicate Valid(c: Conn) {
    && c.head + |c.data| <= c.maxSize
    && (c.data == [] ==> c.head == 0)
    && (!c.closed && c.data != [] ==> c.registered && c.hasSocket)
  }

  lemma StepValid(c: Conn, op: Op)
    requires Valid(c) && Possible(c, op)
    ensures Valid(Step(c, op)) && (c.closed ==> Step(c, op) == c)
  {
  }

  lemma EmptyStartsOver(c: Conn)
    requires Valid(c)
    ensures c.data == [] ==> c.head == 0
    ensures !c.closed && c.data != [] ==> c.registered && c.hasSocket
  {
  }

  /** One call, by its circumstances: when the connection is closed, what goes onto the wire, what is buffered, and
      what io_write answers. */
  lemma StepExact(c: Conn, op: Op)
    requires Valid(c) && Possible(c, op)
    ensures var d := Step(c, op);
      && (d.closed <==> c.closed || SocketFails(c, op) || NoRoom(c, op))
      && d.wire == c.wire + (if op.Write? then op.buf else c.data)[..Put(c, op)]
      && (d.closed || d.data == if op.Write? then c.data + Unsent(c, op) else c.data[Put(c, op)..])
      && (d.closed || d.head == if d.data == [] then 0 else if op.Write? then c.head else c.head + Put(c, op))
      && (!d.closed && d.data != [] ==> d.registered)
      && d.maxSize == c.maxSize && (d.closed || d.hasSocket == c.hasSocket)
    ensures op.Write? ==>
      WriteResult(c, op.buf, op.answer) == if Refused(c, op) then -1 else Put(c, op)
  {
    assert c.wire + [] == c.wire;
    assert c.data + [] == c.data;
    assert op.Write? && op.answer.Taken? && op.answer.n == |op.buf| ==> op.buf[op.answer.n..] == [];
  }

  /** An accepted payload is on the wire or buffered, behind everything before it, unless the call closes the
      connection: the octets that the socket left did not fit, although nothing was buffered. */
  lemma AcceptedKept(c: Conn, op: Op)
    requires Valid(c) && op.Write? && Possible(c, op) && !Refused(c, op)
    ensures var d := Step(c, op);
      && WriteResult(c, op.buf, op.answer) >= 0
      && if d.closed then c.data == [] && NoRoom(c, op) && d.wire == c.wire + op.buf[..Put(c, op)]
         else d.wire + d.data == c.wire + c.data + op.buf
  {
    hide Step, WriteResult, Unsent, NoRoom, Put;
    StepExact(c, op);
    StepConserves(c, op);
    RefusedExact(c, op);
  }

  lemma RefusedExact(c: Conn, op: Op)
    requires op.Write? && Possible(c, op) && !Refused(c, op)
    ensures !c.closed && !SocketFails(c, op) && (c.data == [] || !NoRoom(c, op))
  {
  }

  /** Somewhere in the run a call on the open connection runs into a failing socket or into a full buffer. */
  predicate EverFails(c: Conn, ops: seq<Op>)
    requires PossibleRun(c, ops)
    decreases |ops|
  {
    ops != [] && (SocketFails(c, ops[0]) || NoRoom(c, ops[0]) || EverFails(Step(c, ops[0]), ops[1..]))
  }

  /** A run ends closed if and only if the connection was closed before it, or a call of it ran into a failing socket or
      a full buffer. */
  lemma {:induction false} RunCloses(c: Conn, ops: seq<Op>)
    requires Valid(c) && PossibleRun(c, ops)
    ensures Run(c, ops).closed <==> c.closed || EverFails(c, ops)
    decreases |ops|
  {
    hide Step, SocketFails, NoRoom;
    if ops != [] {
      StepExact(c, ops[0]);
      StepValid(c, ops[0]);
      RunCloses(Step(c, ops[0]), ops[1..]);
    }
  }

  /** The payloads of a run that were not refused. */
  function NotRefused(c: Conn, ops: seq<Op>): seq<byte>
    requires PossibleRun(c, ops)
    decreases |ops|
  {
    if ops == [] then []
    else (if ops[0].Write? && !Refused(c, ops[0]) then ops[0].buf else []) + NotRefused(Step(c, ops[0]), ops[1..])
  }

  lemma {:induction false} AcceptedExact(c: Conn, ops: seq<Op>)
    requires Valid(c) && PossibleRun(c, ops)
    ensures Accepted(c, ops) == NotRefused(c, ops)
    decreases |ops|
  {
    hide Step, WriteResult, Refused;
    if ops != [] {
      StepValid(c, ops[0]);
      if ops[0].Write? {
        ResultSign(c, ops[0]);
      }
      AcceptedExact(Step(c, ops[0]), ops[1..]);
    }
  }

  lemma ResultSign(c: Conn, op: Op)
    requires Valid(c) && op.Write? && Possible(c, op)
    ensures WriteResult(c, op.buf, op.answer) >= 0 <==> !Refused(c, op)
  {
    hide Step, WriteResult, Refused;
    StepExact(c, op);
  }

  /** Every run without a failing socket and a full buffer: the connection is open, and what the socket took followed by
      what is buffered is what it was before, followed by the payloads that were not refused. */
  lemma RunKeepsAll(c: Conn, ops: seq<Op>)
    requires Valid(c) && !c.closed && PossibleRun(c, ops) && !EverFails(c, ops)
    ensures var r := Run(c, ops);
      !r.closed && r.wire + r.data == c.wire + c.data + NotRefused(c, ops) && (r.data != [] ==> r.registered)
  {
    hide Run, EverFails, PossibleRun, Accepted, NotRefused;
    RunCloses(c, ops);
    RunConserves(c, ops);
    AcceptedExact(c, ops);
  }

  /** What the peer has received and what is still buffered. */
  function Stream(c: Conn): seq<byte> {
    c.wire + c.data
  }

  /** One call: nothing is lost, repeated or reordered; a call that closes the connection sends at most
      a beginning of what it was given. */
  lemma StepConserves(c: Conn, op: Op)
    requires Valid(c) && Possible(c, op)
    ensures var given := if op.Write? && WriteResult(c, op.buf, op.answer) >= 0 then op.buf else [];
      && (!Step(c, op).closed ==> Stream(Step(c, op)) == Stream(c) + given)
      && Step(c, op).wire <= Stream(c) + given
      && c.wire <= Step(c, op).wire
  {
    var s := Stream(c);
    match op {
      case Write(buf, answer) =>
        if answer.Taken? {
          assert buf[..answer.n] + buf[answer.n..] == buf;
          assert c.data == [] ==> c.wire + [] == c.wire;
          assert c.wire + buf[..answer.n] + buf[answer.n..] == c.wire + buf;
        }
        assert c.wire + c.data + buf == c.wire + (c.data + buf);
      case Ready(answer) =>
        if answer.Taken? {
          assert c.data[..answer.n] + c.data[answer.n..] == c.data;
          assert c.wire + c.data[..answer.n] + c.data[answer.n..] == c.wire + c.data;
        }
        assert s + [] == s;
    }
  }

  /** Conservation: in every interleaving of io_write and io_write_cb, with any socket, what the socket
      took followed by what is buffered is what was accepted; and even when the connection was closed
      on the way, the peer has a beginning of it. */
  lemma {:induction false} RunConserves(c: Conn, ops: seq<Op>)
    requires Valid(c) && PossibleRun(c, ops)
    ensures var r := Run(c, ops);
      && Valid(r)
      && (!r.closed ==> Stream(r) == Stream(c) + Accepted(c, ops))
      && r.wire <= Stream(c) + Accepted(c, ops)
      && c.wire <= r.wire
    decreases |ops|
  {
    hide Step, WriteResult, Valid, Possible, Stream;
    if ops == [] {
      EmptyRun(c);
    } else {
      var op := ops[0];
      StepValid(c, op);
      StepConserves(c, op);
      var d := Step(c, op);
      RunConserves(d, ops[1..]);
      var given := if op.Write? && WriteResult(c, op.buf, op.answer) >= 0 then op.buf else [];
      assert Stream(c) + given + Accepted(d, ops[1..]) == Stream(c) + (given + Accepted(d, ops[1..]));
      if d.closed {
        StaysClosed(d, ops[1..]);
        PrefixMore(d.wire, Stream(c) + given, Accepted(d, ops[1..]));
      }
    }
  }

  lemma EmptyRun(c: Conn)
    ensures Stream(c) + [] == Stream(c) && c.wire <= Stream(c)
  {
  }

  lemma PrefixMore(a: seq<byte>, b: seq<byte>, more: seq<byte>)
    requires a <= b
    ensures a <= b + more
  {
  }

  /** After a close nothing changes any more. */
  lemma {:induction false} StaysClosed(c: Conn, ops: seq<Op>)
    requires c.closed && Valid(c) && PossibleRun(c, ops)
    ensures Run(c, ops) == c
    decreases |ops|
  {
    if ops != [] {
      StepValid(c, ops[0]);
      StaysClosed(c, ops[1..]);
    }
  }

  /** Progress: a socket that takes at least one octet each time it is ready empties the buffer. */
  lemma {:induction false} RunDrains(c: Conn, ops: seq<Op>)
    requires Valid(c) && !c.closed && PossibleRun(c, ops) && |ops| >= |c.data|
    requires forall i :: 0 <= i < |ops| ==> ops[i].Ready? && ops[i].answer.Taken?
    requires forall i :: 0 <= i < |c.data| ==> ops[i].answer.n > 0
    ensures var r := Run(c, ops); !r.closed && r.data == [] && r.head == 0 && r.wire == Stream(c)
    decreases |ops|
  {
    if ops == [] {
      assert c.wire + [] == c.wire;
    } else {
      StepValid(c, ops[0]);
      StepConserves(c, ops[0]);
      assert Stream(c) + [] == Stream(c);
      var d := Step(c, ops[0]);
      assert forall i :: 0 <= i < |d.data| ==> ops[1..][i] == ops[i + 1];
      RunDrains(d, ops[1..]);
    }
  }

  // ---------- the code ----------

  class Io {
    var fd: int
    var closed: bool
    /** EVENT_WRITE in `events` */
    var registered: bool
    /** The write buffer: base, head, tail, and its length as maxSize. */
    const base: array<byte>
    var head: nat
    var tail: nat
    /** What the socket has taken. */
    ghost var wire: seq<byte>

    ghost predicate Ok()
      reads this
    {
      head <= tail <= base.Length
    }

    ghost function Abs(): Conn
      reads this, base
      requires Ok()
    {
      Conn(base.Length, fd != -1, closed, head, base[head..tail], registered, wire)
    }

    /** get_io */
    constructor (fd: int, maxSize: nat)
      requires fd >= 0
      ensures Ok() && Valid(Abs()) && Abs() == Conn(maxSize, true, false, 0, [], false, [])
      ensures fresh(base)
    {
      this.fd, closed, registered := fd, false, false;
      base := new byte[maxSize];
      head, tail := 0, 0;
      wire := [];
    }

    /** buffer_is_empty */
    predicate BufferIsEmpty()
      reads this
    {
      head == tail
    }

    /** buffer_append_data */
    method BufferAppend(buf: seq<byte>) returns (status: int)
      requires Ok()
      modifies this`tail, base
      ensures Ok() && tail >= old(tail)
      ensures status == if old(tail) + |buf| > base.Length then -1 else 0
      ensures status == 0 ==> tail == old(tail) + |buf| && base[head..tail] == old(base[head..tail]) + buf
      ensures status != 0 ==> tail == old(tail) && base[..] == old(base[..])
    {
      if tail + |buf| > base.Length {
        return -1;
      }
      forall i | 0 <= i < |buf| {
        base[tail + i] := buf[i];
      }
      tail := tail + |buf|;
      return 0;
    }

    /** io_close, as far as writing is concerned. */
    method Close()
      modifies this`closed, this`registered, this`fd
      ensures closed && !registered && fd == -1
    {
      closed := true;
      registered := false;
      fd := -1;
    }

    /** The part of the buffer that io_write_cb offers to the socket. */
    method Shift(n: nat)
      requires Ok() && n <= tail - head && tail > head
      modifies this`head, this`tail
      ensures Ok() && base[head..tail] == old(base[head..tail])[n..]
      ensures head == if n == old(tail - head) then 0 else old(head) + n
    {
      if n == tail - head {
        head := 0;
        tail := 0;
      } else {
        head := head + n;
      }
    }

    /** io_write on the plain TCP path; `answer` is what write(2) would answer if it is called. */
    method IoWrite(buf: seq<byte>, answer: Answer) returns (nwrite: int)
      requires Ok() && Valid(Abs()) && (answer.Taken? ==> answer.n <= |buf|)
      modifies this, base
      ensures Ok() && Valid(Abs())
      ensures Abs() == Written(old(Abs()), buf, answer) && nwrite == WriteResult(old(Abs()), buf, answer)
      ensures var c, op := old(Abs()), Write(buf, answer);
        && (closed <==> c.closed || SocketFails(c, op) || NoRoom(c, op))
        && (closed || base[head..tail] == c.data + Unsent(c, op))
        && wire == c.wire + buf[..Put(c, op)]
        && nwrite == if Refused(c, op) then -1 else Put(c, op)
    {
      hide Valid, Refused, Unsent, NoRoom, SocketFails, Put;
      StepValid(Abs(), Write(buf, answer));
      StepExact(Abs(), Write(buf, answer));
      EmptyStartsOver(Abs());
      if closed {
        return -1;
      }
      if !BufferIsEmpty() {
        var status := BufferAppend(buf);
        if status != 0 {
          Close();
          return -1;
        }
        return 0;
      }
      if fd == -1 {
        return -1;
      }
      if answer.Broken? {
        Close();
        return -1;
      }
      nwrite := if answer.Again? then 0 else answer.n;
      wire := wire + buf[..nwrite];
      assert answer.Again? ==> wire == old(wire);
      if answer.Again? || nwrite < |buf| {
        var status := BufferAppend(buf[nwrite..]);
        if status != 0 {
          Close();
          assert Abs() == Written(old(Abs()), buf, answer);
          return nwrite;
        }
        registered := true;
      }
    }

    /** io_write_cb on the plain TCP path. */
    method IoWriteCb(answer: Answer)
      requires Ok() && Valid(Abs()) && (answer.Taken? ==> answer.n <= tail - head)
      modifies this
      ensures Ok() && Valid(Abs()) && Abs() == Drained(old(Abs()), answer)
      ensures var c, op := old(Abs()), Ready(answer);
        && (closed <==> c.closed || SocketFails(c, op))
        && wire == c.wire + c.data[..Put(c, op)]
        && (closed || base[head..tail] == c.data[Put(c, op)..])
    {
      hide Valid, SocketFails, Put;
      StepValid(Abs(), Ready(answer));
      StepExact(Abs(), Ready(answer));
      assert BufferIsEmpty() <==> Abs().data == [];
      if closed || BufferIsEmpty() || answer.Again? {
        return;
      }
      if answer.Broken? {
        Close();
        return;
      }
      assert base[head..head + answer.n] == base[head..tail][..answer.n];
      wire := wire + base[head..head + answer.n];
      Shift(answer.n);
    }
  }
}
