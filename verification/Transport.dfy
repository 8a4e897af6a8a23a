/**
 * The nonblocking pipe transport (crates/kwe-cdp/src/transport.rs).
 *
 * The operating system is an adversary: each call is given the answers its system calls will get.
 * When the answers run out, the next one is "would block" with the deadline passed.
 */
module Transport {
  import opened Common
  import opened Codec

  const MAX_WRITE_BACKLOG_BYTES := 4 * 1024 * 1024
  const DEFAULT_READ_BUDGET_BYTES: u64 := 64 * 1024
  const READ_CHUNK_BYTES := 4096

  datatype TransportError =
    | Oversized
    | BacklogFull
    | WriteZero
    | Wedged
    | WaitError
    | WriteError
    | ReadError
    | UnexpectedEof

  /** What `write` answers. `Wrote` never takes more than it was offered. */
  datatype WriteReply = Wrote(n: nat) | WriteInterrupted | WriteBlocked(expired: bool, waitFails: bool) | WriteFails

  /** `read` fills at most one chunk. */
  type Chunk = bytes: Bytes | |bytes| <= READ_CHUNK_BYTES

  /** What `read` answers; an empty `Got` is the end of the stream. */
  datatype ReadReply = Got(bytes: Chunk) | ReadInterrupted | ReadBlocked | ReadFails

  /** What waiting for readability answers, when there is time left to wait at all. */
  datatype Wait = NoWait | Ready | TimedOut | WaitFails

  // ---- Writing ----

  datatype Flushed = Flushed(wrote: Bytes, result: Result<(), TransportError>)

  function Offer(n: nat, pending: Bytes): nat {
    if n <= |pending| then n else |pending|
  }

  function Flush(pending: Bytes, answers: seq<WriteReply>, blocking: bool): (r: Flushed)
    ensures r.wrote <= pending
    decreases |answers|
  {
    if pending == [] then Flushed([], Ok(()))
    else if answers == [] then Flushed([], if blocking then Err(Wedged) else Ok(()))
    else
      match answers[0]
      case Wrote(n) =>
        if n == 0 then Flushed([], Err(WriteZero))
        else
          var k := Offer(n, pending);
          var later := Flush(pending[k..], answers[1..], blocking);
          later.(wrote := pending[..k] + later.wrote)
      case WriteInterrupted => Flush(pending, answers[1..], blocking)
      case WriteBlocked(expired, waitFails) =>
        if !blocking then Flushed([], Ok(()))
        else if expired then Flushed([], Err(Wedged))
        else if waitFails then Flushed([], Err(WaitError))
        else Flush(pending, answers[1..], blocking)
      case WriteFails => Flushed([], Err(WriteError))
  }

  /** The write buffer: the part before `offset` is already written, and kept until all of it is. */
  datatype Outbox = Outbox(backlog: Bytes, offset: nat) {
    predicate Valid() {
      offset <= |backlog|
    }

    function Pending(): Bytes
      requires Valid()
    {
      backlog[offset..]
    }

    function Wrote(wrote: Bytes): (r: Outbox)
      requires Valid() && wrote <= Pending()
      ensures r.Valid() && r.Pending() == Pending()[|wrote|..]
    {
      if wrote == Pending() then Outbox([], 0) else Outbox(backlog, offset + |wrote|)
    }
  }

  // ---- Reading ----

  datatype Received = Received(inbox: Drained, bytes: Bytes, eof: bool, result: Result<(), TransportError>)

  /** `budget -= n` on a 64-bit `usize`, as it wraps when overflow is not checked. */
  function Spend(budget: u64, n: nat): u64
    requires n <= READ_CHUNK_BYTES
  {
    if n <= budget then budget - n else budget + U64_MAX + 1 - n
  }

  function Receive(max: nat, inbox: Drained, answers: seq<ReadReply>, budget: u64): (r: Received)
    ensures r.eof ==> r.result.Ok?
    decreases |answers|
  {
    if budget == 0 || answers == [] then Received(inbox, [], false, Ok(()))
    else
      match answers[0]
      case Got(bytes) =>
        if bytes == [] then Received(inbox, [], true, Ok(()))
        else
          var pushed := PushOne(max, inbox, bytes);
          if !pushed.ok then Received(pushed, bytes, false, Err(Oversized))
          else
            var later := Receive(max, pushed, answers[1..], Spend(budget, |bytes|));
            later.(bytes := bytes + later.bytes)
      case ReadInterrupted => Receive(max, inbox, answers[1..], budget)
      case ReadBlocked => Received(inbox, [], false, Ok(()))
      case ReadFails => Received(inbox, [], false, Err(ReadError))
  }

  // ---- The transport as a whole ----

  /** `wire` and `received` are all bytes the system has accepted and delivered so far. */
  datatype Pipe = Pipe(outbox: Outbox, inbox: Drained, eof: bool, wire: Bytes, received: Bytes) {
    function FlushWith(answers: seq<WriteReply>, blocking: bool): (r: (Pipe, Result<(), TransportError>))
      requires outbox.Valid()
      ensures r.0.outbox.Valid() && |wire| <= |r.0.wire|
    {
      var f := Flush(outbox.Pending(), answers, blocking);
      (this.(outbox := outbox.Wrote(f.wrote), wire := wire + f.wrote), f.result)
    }

    function Send(max: nat, body: Bytes, answers: seq<WriteReply>): (r: (Pipe, Result<(), TransportError>))
      requires outbox.Valid()
      ensures r.0.outbox.Valid() && |wire| <= |r.0.wire|
    {
      if |body| + 1 > max then (this, Err(Oversized))
      else if |outbox.Pending()| + |body| + 1 > MAX_WRITE_BACKLOG_BYTES then (this, Err(BacklogFull))
      else
        (this.(outbox := Outbox(outbox.backlog + Encode(body), outbox.offset)).FlushWith(answers, false).0, Ok(()))
    }

    function Poll(max: nat, blocking: bool, writes: seq<WriteReply>, wait: Wait, arrivals: seq<ReadReply>)
      : (r: (Pipe, Result<seq<Bytes>, TransportError>))
      requires outbox.Valid()
      ensures r.0.outbox.Valid() && |wire| <= |r.0.wire|
    {
      if eof then (this, Err(UnexpectedEof))
      else
        var (flushed, result) := FlushWith(writes, blocking);
        if result.Err? then (flushed, Err(result.error))
        else if wait == WaitFails then (flushed, Err(WaitError))
        else if wait == TimedOut then (flushed.(inbox := inbox.(messages := [])), Ok(inbox.messages))
        else
          var (after, got) := flushed.ReceiveWith(max, arrivals, DEFAULT_READ_BUDGET_BYTES);
          if got.Err? then (after, Err(got.error))
          else (after.(inbox := after.inbox.(messages := [])), Ok(after.inbox.messages))
    }

    function ReceiveWith(max: nat, arrivals: seq<ReadReply>, budget: u64): (Pipe, Result<(), TransportError>) {
      var r := Receive(max, inbox, arrivals, budget);
      (this.(inbox := r.inbox, eof := eof || r.eof, received := received + r.bytes), r.result)
    }
  }

  const NEW_PIPE: Pipe := Pipe(Outbox([], 0), Drained([], [], true), false, [], [])

  /** The transport object; its methods do to the fields what the functions above say. */
  class PipeTransport {
    const maxMessageBytes: nat
    const decoder: Decoder
    var writeBacklog: Bytes
    var writeOffset: nat
    var readBytes: nat
    var writtenBytes: nat
    var eofSeen: bool
    ghost var wire: Bytes
    ghost var received: Bytes
    ghost var lastPush: bool

    ghost predicate Valid()
      reads this, decoder
    {
      && decoder.Valid() && decoder.maxMessageBytes == maxMessageBytes
      && writeOffset <= |writeBacklog|
      && writtenBytes == |wire| && readBytes == |received|
    }

    ghost function State(): Pipe
      reads this, decoder
    {
      Pipe(Outbox(writeBacklog, writeOffset), Drained(decoder.messages, decoder.buffer, lastPush), eofSeen,
           wire, received)
    }

    constructor (max: nat)
      ensures Valid() && State() == NEW_PIPE && maxMessageBytes == max && fresh(decoder)
    {
      maxMessageBytes := max;
      decoder := new Decoder(max);
      writeBacklog := [];
      writeOffset := 0;
      readBytes := 0;
      writtenBytes := 0;
      eofSeen := false;
      wire := [];
      received := [];
      lastPush := true;
    }

    method FlushWrites(answers: seq<WriteReply>, blocking: bool) returns (r: Result<(), TransportError>)
      requires Valid()
      modifies this`writeBacklog, this`writeOffset, this`writtenBytes, this`wire
      ensures Valid()
      ensures (State(), r) == old(State()).FlushWith(answers, blocking)
    {
      hide Flush, Pipe.FlushWith;
      var next := 0;
      while writeOffset < |writeBacklog|
        invariant next <= |answers| && Valid()
        invariant State().FlushWith(answers[next..], blocking) == old(State()).FlushWith(answers, blocking)
        decreases |answers| - next
      {
        ghost var rest := answers[next..];
        FlushTurn(State(), rest, blocking);
        if next == |answers| {
          return if blocking then Err(Wedged) else Ok(());
        }
        var answer := answers[next];
        assert rest[0] == answer && rest[1..] == answers[next + 1..];
        next := next + 1;
        match answer {
          case Wrote(n) =>
            if n == 0 {
              return Err(WriteZero);
            }
            var written := Offer(n, writeBacklog[writeOffset..]);
            wire := wire + writeBacklog[writeOffset..][..written];
            writeOffset := writeOffset + written;
            writtenBytes := writtenBytes + written;
          case WriteInterrupted =>
          case WriteBlocked(expired, waitFails) =>
            if !blocking {
              return Ok(());
            }
            if expired {
              return Err(Wedged);
            }
            if waitFails {
              return Err(WaitError);
            }
          case WriteFails =>
            return Err(WriteError);
        }
      }
      FlushTurn(State(), answers[next..], blocking);
      writeBacklog := [];
      writeOffset := 0;
      return Ok(());
    }

    method Send(body: Bytes, answers: seq<WriteReply>) returns (r: Result<(), TransportError>)
      requires Valid()
      modifies this
      ensures Valid()
      ensures (State(), r) == old(State()).Send(maxMessageBytes, body, answers)
    {
      if |body| + 1 > maxMessageBytes {
        return Err(Oversized);
      }
      var pending := |writeBacklog| - writeOffset;
      if pending + |body| + 1 > MAX_WRITE_BACKLOG_BYTES {
        return Err(BacklogFull);
      }
      writeBacklog := writeBacklog + Encode(body);
      var ignored := FlushWrites(answers, false);
      return Ok(());
    }

    method ReadAvailable(wait: Wait, arrivals: seq<ReadReply>) returns (r: Result<(), TransportError>)
      requires Valid()
      modifies this`readBytes, this`received, this`eofSeen, this`lastPush, decoder
      ensures Valid()
      ensures wait == WaitFails ==> r == Err(WaitError) && State() == old(State())
      ensures wait == TimedOut ==> r == Ok(()) && State() == old(State())
      ensures wait == NoWait || wait == Ready ==>
                (State(), r) == old(State()).ReceiveWith(maxMessageBytes, arrivals, DEFAULT_READ_BUDGET_BYTES)
    {
      if wait == WaitFails {
        return Err(WaitError);
      }
      if wait == TimedOut {
        return Ok(());
      }
      var next := 0;
      var budget := DEFAULT_READ_BUDGET_BYTES;
      while budget > 0 && next < |arrivals|
        invariant next <= |arrivals| && Valid()
        invariant State().ReceiveWith(maxMessageBytes, arrivals[next..], budget)
                  == old(State()).ReceiveWith(maxMessageBytes, arrivals, DEFAULT_READ_BUDGET_BYTES)
        decreases |arrivals| - next
      {
        ghost var before := State();
        var arrival := arrivals[next];
        ghost var rest := arrivals[next..];
        assert rest[0] == arrival && rest[1..] == arrivals[next + 1..];
        next := next + 1;
        match arrival {
          case Got(bytes) =>
            ReceiveTurn(maxMessageBytes, before, rest, budget);
            if bytes == [] {
              eofSeen := true;
              return Ok(());
            }
            readBytes := readBytes + |bytes|;
            received := received + bytes;
            var ok := decoder.Push(bytes);
            lastPush := ok;
            if !ok {
              return Err(Oversized);
            }
            budget := Spend(budget, |bytes|);
          case ReadInterrupted =>
          case ReadBlocked =>
            ReceiveTurn(maxMessageBytes, before, rest, budget);
            return Ok(());
          case ReadFails =>
            ReceiveTurn(maxMessageBytes, before, rest, budget);
            return Err(ReadError);
        }
      }
      ReceiveTurn(maxMessageBytes, State(), arrivals[next..], budget);
      return Ok(());
    }

    method Poll(blocking: bool, writes: seq<WriteReply>, wait: Wait, arrivals: seq<ReadReply>)
      returns (r: Result<seq<Bytes>, TransportError>)
      requires Valid()
      modifies this, decoder
      ensures Valid()
      ensures (State(), r) == old(State()).Poll(maxMessageBytes, blocking, writes, wait, arrivals)
    {
      if eofSeen {
        return Err(UnexpectedEof);
      }
      var flushed := FlushWrites(writes, blocking);
      if flushed.Err? {
        return Err(flushed.error);
      }
      var got := ReadAvailable(wait, arrivals);
      if got.Err? {
        return Err(got.error);
      }
      var messages := decoder.TakeMessages();
      return Ok(messages);
    }
  }

  /** One turn of the flush: what the next answer of `write` does to the pipe. */
  lemma {:induction false} FlushTurn(p: Pipe, answers: seq<WriteReply>, blocking: bool)
    requires p.outbox.Valid()
    ensures p.outbox.Pending() == [] ==> p.FlushWith(answers, blocking) == (p.(outbox := Outbox([], 0)), Ok(()))
    ensures p.outbox.Pending() != [] && answers == [] ==>
              p.FlushWith(answers, blocking) == (p, if blocking then Err(Wedged) else Ok(()))
    ensures p.outbox.Pending() != [] && answers != [] ==>
              match answers[0]
              case Wrote(n) =>
                if n == 0 then p.FlushWith(answers, blocking) == (p, Err(WriteZero))
                else
                  var k := Offer(n, p.outbox.Pending());
                  p.FlushWith(answers, blocking) == Advanced(p, k).FlushWith(answers[1..], blocking)
              case WriteInterrupted => p.FlushWith(answers, blocking) == p.FlushWith(answers[1..], blocking)
              case WriteBlocked(expired, waitFails) =>
                p.FlushWith(answers, blocking) ==
                if !blocking then (p, Ok(()))
                else if expired then (p, Err(Wedged))
                else if waitFails then (p, Err(WaitError))
                else p.FlushWith(answers[1..], blocking)
              case WriteFails => p.FlushWith(answers, blocking) == (p, Err(WriteError))
  {
    var pending := p.outbox.Pending();
    assert p.wire + [] == p.wire;
    if pending != [] && answers != [] && answers[0].Wrote? && answers[0].n > 0 {
      AdvancedFlush(p, answers, blocking);
    }
  }

  /** The pipe after `write` took `k` of the pending bytes. */
  ghost function Advanced(p: Pipe, k: nat): (r: Pipe)
    requires p.outbox.Valid() && k <= |p.outbox.Pending()|
    ensures r.outbox.Valid()
  {
    p.(outbox := Outbox(p.outbox.backlog, p.outbox.offset + k), wire := p.wire + p.outbox.Pending()[..k])
  }

  lemma {:induction false} AdvancedFlush(p: Pipe, answers: seq<WriteReply>, blocking: bool)
    requires p.outbox.Valid() && p.outbox.Pending() != []
    requires answers != [] && answers[0].Wrote? && answers[0].n > 0
    ensures var k := Offer(answers[0].n, p.outbox.Pending());
            p.FlushWith(answers, blocking) == Advanced(p, k).FlushWith(answers[1..], blocking)
  {
    var pending := p.outbox.Pending();
    var k := Offer(answers[0].n, pending);
    var later := Flush(pending[k..], answers[1..], blocking);
    assert p.outbox.backlog[p.outbox.offset + k..] == pending[k..];
    TakenThenRest(p.wire, pending, k, later.wrote);
  }

  lemma {:induction false} TakenThenRest(wire: Bytes, pending: Bytes, k: nat, later: Bytes)
    requires k <= |pending|
    ensures wire + (pending[..k] + later) == (wire + pending[..k]) + later
    ensures pending[..k] + later == pending <==> later == pending[k..]
  {
  }

  /** One answer of `read`. */
  lemma {:induction false} ReceiveTurn(max: nat, p: Pipe, arrivals: seq<ReadReply>, budget: u64)
    ensures budget == 0 || arrivals == [] || arrivals[0].ReadBlocked? ==>
              p.ReceiveWith(max, arrivals, budget) == (p, Ok(()))
    ensures budget > 0 && arrivals != [] && arrivals[0].ReadFails? ==>
              p.ReceiveWith(max, arrivals, budget) == (p, Err(ReadError))
    ensures budget > 0 && arrivals != [] && arrivals[0] == Got([]) ==>
              p.ReceiveWith(max, arrivals, budget) == (p.(eof := true), Ok(()))
    ensures budget > 0 && arrivals != [] && arrivals[0].Got? && arrivals[0].bytes != [] ==>
              var bytes := arrivals[0].bytes;
              var pushed := PushOne(max, p.inbox, bytes);
              var q := p.(inbox := pushed, received := p.received + bytes);
              p.ReceiveWith(max, arrivals, budget)
              == if pushed.ok then q.ReceiveWith(max, arrivals[1..], Spend(budget, |bytes|)) else (q, Err(Oversized))
  {
    assert p.received + [] == p.received;
    if budget > 0 && arrivals != [] && arrivals[0].Got? && arrivals[0].bytes != [] {
      var bytes := arrivals[0].bytes;
      var later := Receive(max, PushOne(max, p.inbox, bytes), arrivals[1..], Spend(budget, |bytes|));
      assert p.received + (bytes + later.bytes) == (p.received + bytes) + later.bytes;
    }
  }
}
