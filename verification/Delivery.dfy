/** End-to-end delivery over the pipe: sends, partial writes, and a peer that decodes what it reads. */
module Delivery {
  import opened Common
  import opened Codec
  import opened Transport

  /**
   * A transport and the peer at the other end of its write pipe, a decoder with the same bound.
   * `bodies` are those `send` accepted, `delivered` the messages `poll` returned, `taken` how much
   * of the wire the peer has read.
   */
  datatype Link = Link(pipe: Pipe, bodies: seq<Bytes>, delivered: seq<Bytes>, peer: Drained, taken: nat)

  datatype Event =
    | SendBody(body: Bytes, answers: seq<WriteReply>)
    | PollOnce(blocking: bool, writes: seq<WriteReply>, wait: Wait, arrivals: seq<ReadReply>)
    | PeerReads(n: nat)

  const NEW_LINK: Link := Link(NEW_PIPE, [], [], Drained([], [], true), 0)

  function Happen(max: nat, l: Link, e: Event): (r: Link)
    requires l.pipe.outbox.Valid() && l.taken <= |l.pipe.wire|
    ensures r.pipe.outbox.Valid() && r.taken <= |r.pipe.wire|
  {
    match e
    case SendBody(body, answers) =>
      var (p, r) := l.pipe.Send(max, body, answers);
      l.(pipe := p, bodies := if r.Ok? then l.bodies + [body] else l.bodies)
    case PollOnce(blocking, writes, wait, arrivals) =>
      var (p, r) := l.pipe.Poll(max, blocking, writes, wait, arrivals);
      l.(pipe := p, delivered := if r.Ok? then l.delivered + r.value else l.delivered)
    case PeerReads(n) =>
      var unread := l.pipe.wire[l.taken..];
      var k := Offer(n, unread);
      l.(peer := PushOne(max, l.peer, unread[..k]), taken := l.taken + k)
  }

  function LinkAfter(max: nat, events: seq<Event>): (l: Link)
    ensures l.pipe.outbox.Valid() && l.taken <= |l.pipe.wire|
  {
    if events == [] then NEW_LINK
    else Happen(max, LinkAfter(max, events[..|events| - 1]), events[|events| - 1])
  }

  lemma {:induction false} AlwaysLinked(max: nat, events: seq<Event>)
    ensures Linked(max, LinkAfter(max, events))
  {
    if events == [] {
      NewLinked(max);
    } else {
      AlwaysLinked(max, events[..|events| - 1]);
      HappenKeepsLinked(max, LinkAfter(max, events[..|events| - 1]), events[|events| - 1]);
    }
  }

  ghost predicate Linked(max: nat, l: Link) {
    && l.pipe.outbox.Valid()
    && l.taken <= |l.pipe.wire|
    && Outbound(max, l.pipe, l.bodies)
    && Inbound(max, l.pipe, l.delivered)
    && l.peer == Drain(max, l.pipe.wire[..l.taken])
  }

  /** What was accepted is on the wire or pending, in order. */
  ghost predicate Outbound(max: nat, p: Pipe, bodies: seq<Bytes>)
    requires p.outbox.Valid()
  {
    && EncodeAll(bodies) == p.wire + p.outbox.Pending()
    && (forall b :: b in bodies ==> |b| + 1 <= max)
    && |p.outbox.Pending()| <= MAX_WRITE_BACKLOG_BYTES
  }

  /** What was read is delivered, waiting to be delivered, or buffered; nothing waits once the end was seen. */
  ghost predicate Inbound(max: nat, p: Pipe, delivered: seq<Bytes>) {
    && Drain(max, p.received).messages == delivered + p.inbox.messages
    && Drain(max, p.received).rest == p.inbox.rest
    && (p.eof ==> p.inbox.messages == [])
  }

  lemma {:induction false} NewLinked(max: nat)
    ensures Linked(max, NEW_LINK)
  {
  }

  // ---- Outbound ----

  lemma {:induction false} EncodeAllAppend(bodies: seq<Bytes>, body: Bytes)
    ensures EncodeAll(bodies + [body]) == EncodeAll(bodies) + Encode(body)
  {
    if bodies == [] {
      assert [] + [body] == [body];
    } else {
      EncodeAllAppend(bodies[1..], body);
      assert (bodies + [body])[1..] == bodies[1..] + [body];
    }
  }

  lemma {:induction false} FlushKeepsOutbound(max: nat, p: Pipe, bodies: seq<Bytes>, answers: seq<WriteReply>,
                                              blocking: bool)
    requires p.outbox.Valid() && Outbound(max, p, bodies)
    ensures var q := p.FlushWith(answers, blocking).0;
            && q.outbox.Valid() && Outbound(max, q, bodies)
            && q.inbox == p.inbox && q.received == p.received && q.eof == p.eof && p.wire <= q.wire
  {
  }

  lemma {:induction false} SendKeepsOutbound(max: nat, p: Pipe, bodies: seq<Bytes>, body: Bytes,
                                             answers: seq<WriteReply>)
    requires p.outbox.Valid() && Outbound(max, p, bodies)
    ensures var (q, r) := p.Send(max, body, answers);
            && q.outbox.Valid() && Outbound(max, q, if r.Ok? then bodies + [body] else bodies)
            && q.inbox == p.inbox && q.received == p.received && q.eof == p.eof && p.wire <= q.wire
  {
    if p.Send(max, body, answers).1.Ok? {
      var o := Outbox(p.outbox.backlog + Encode(body), p.outbox.offset);
      AppendPending(p.wire, p.outbox, Encode(body));
      EncodeAllAppend(bodies, body);
      FlushKeepsOutbound(max, p.(outbox := o), bodies + [body], answers, false);
    }
  }

  lemma {:induction false} AppendPending(wire: Bytes, o: Outbox, more: Bytes)
    requires o.Valid()
    ensures var q := Outbox(o.backlog + more, o.offset);
            q.Pending() == o.Pending() + more && wire + q.Pending() == (wire + o.Pending()) + more
  {
  }

  // ---- Inbound ----

  lemma {:induction false} ReceiveIsPushes(max: nat, inbox: Drained, arrivals: seq<ReadReply>, received: Bytes,
                                           delivered: seq<Bytes>, budget: u64)
    requires Drain(max, received).messages == delivered + inbox.messages
    requires Drain(max, received).rest == inbox.rest
    ensures var r := Receive(max, inbox, arrivals, budget);
            var all := Drain(max, received + r.bytes);
            all.messages == delivered + r.inbox.messages && all.rest == r.inbox.rest
    decreases |arrivals|
  {
    if budget == 0 || arrivals == [] || arrivals[0].ReadBlocked? || arrivals[0].ReadFails? || arrivals[0] == Got([]) {
      assert received + [] == received;
    } else if arrivals[0].ReadInterrupted? {
      ReceiveIsPushes(max, inbox, arrivals[1..], received, delivered, budget);
    } else {
      var bytes := arrivals[0].bytes;
      var pushed := PushOne(max, inbox, bytes);
      PushOnDrained(max, inbox, bytes, received, delivered);
      if pushed.ok {
        ReceiveIsPushes(max, pushed, arrivals[1..], received + bytes, delivered, Spend(budget, |bytes|));
        AppendTwice(received, bytes, Receive(max, pushed, arrivals[1..], Spend(budget, |bytes|)).bytes);
      }
    }
  }

  lemma {:induction false} PushOnDrained(max: nat, inbox: Drained, bytes: Bytes, received: Bytes, delivered: seq<Bytes>)
    requires Drain(max, received).messages == delivered + inbox.messages
    requires Drain(max, received).rest == inbox.rest
    requires bytes != []
    ensures var pushed, all := PushOne(max, inbox, bytes), Drain(max, received + bytes);
            all.messages == delivered + pushed.messages && all.rest == pushed.rest
  {
    DrainInSteps(max, received, bytes);
    if !Drain(max, received).ok {
      DrainMeaning(max, received);
      PoisonStays(max, inbox.rest, bytes);
    }
  }

  lemma {:induction false} PollKeepsBoth(max: nat, p: Pipe, bodies: seq<Bytes>, delivered: seq<Bytes>, blocking: bool,
                      writes: seq<WriteReply>, wait: Wait, arrivals: seq<ReadReply>)
    requires p.outbox.Valid() && Outbound(max, p, bodies) && Inbound(max, p, delivered)
    ensures var (q, r) := p.Poll(max, blocking, writes, wait, arrivals);
            && q.outbox.Valid() && Outbound(max, q, bodies) && p.wire <= q.wire
            && Inbound(max, q, if r.Ok? then delivered + r.value else delivered)
            && (p.eof ==> r == Err(UnexpectedEof))
            && (!p.eof && q.eof ==> r.Ok?)
  {
    hide Drain, Flush, Receive;
    FlushKeepsOutbound(max, p, bodies, writes, blocking);
    ReceiveIsPushes(max, p.inbox, arrivals, p.received, delivered, DEFAULT_READ_BUDGET_BYTES);
    var (q, r) := p.Poll(max, blocking, writes, wait, arrivals);
    if r.Ok? {
      assert (delivered + r.value) + [] == delivered + r.value;
    }
  }

  // ---- The whole link ----

  lemma {:induction false} WindowsEnd(bodies: seq<Bytes>, max: nat, i: nat)
    requires forall b :: b in bodies ==> |b| <= max
    ensures !RunAt(EncodeAll(bodies), i, max)
    decreases bodies
  {
    if bodies != [] {
      var n := |bodies[0]|;
      var s := EncodeAll(bodies);
      assert s[n] == 0;
      assert s[n + 1..] == EncodeAll(bodies[1..]);
      if n < i {
        WindowsEnd(bodies[1..], max, i - (n + 1));
        RunAtShift(s, n + 1, i - (n + 1), max);
      }
    }
  }

  /** A prefix of what was encoded never holds an over-long run. */
  lemma {:induction false} PrefixFits(bodies: seq<Bytes>, max: nat, s: Bytes)
    requires forall b :: b in bodies ==> |b| <= max
    requires s <= EncodeAll(bodies)
    ensures !HasLongRun(s, max)
  {
    forall i: nat
      ensures !RunAt(s, i, max)
    {
      WindowsEnd(bodies, max, i);
      assert forall j :: 0 <= j < |s| ==> s[j] == EncodeAll(bodies)[j];
    }
  }

  lemma {:induction false} PeerKeepsDrained(max: nat, bodies: seq<Bytes>, wire: Bytes, taken: nat, k: nat)
    requires forall b :: b in bodies ==> |b| + 1 <= max
    requires wire <= EncodeAll(bodies) && taken + k <= |wire|
    ensures PushOne(max, Drain(max, wire[..taken]), wire[taken..][..k]) == Drain(max, wire[..taken + k])
  {
    assert wire[..taken + k] == wire[..taken] + wire[taken..][..k];
    assert wire[..taken] <= EncodeAll(bodies);
    PushContinues(max, bodies, wire[..taken], wire[taken..][..k]);
  }

  lemma {:induction false} PushContinues(max: nat, bodies: seq<Bytes>, seen: Bytes, chunk: Bytes)
    requires forall b :: b in bodies ==> |b| + 1 <= max
    requires seen <= EncodeAll(bodies)
    ensures PushOne(max, Drain(max, seen), chunk) == Drain(max, seen + chunk)
  {
    PrefixFits(bodies, max, seen);
    DrainMeaning(max, seen);
    if chunk == [] {
      assert seen + chunk == seen;
    } else {
      DrainInSteps(max, seen, chunk);
    }
  }

  /** A longer wire changes nothing about what the peer has read. */
  lemma {:induction false} LongerWire(wire: Bytes, longer: Bytes, taken: nat)
    requires wire <= longer && taken <= |wire|
    ensures longer[..taken] == wire[..taken]
  {
  }

  lemma {:induction false} ReadKeepsLinked(max: nat, l: Link, n: nat)
    requires Linked(max, l)
    ensures Linked(max, Happen(max, l, PeerReads(n)))
  {
    hide Drain, PushOne, EncodeAll;
    PeerKeepsDrained(max, l.bodies, l.pipe.wire, l.taken, Offer(n, l.pipe.wire[l.taken..]));
  }

  lemma {:induction false} SendKeepsLinked(max: nat, l: Link, body: Bytes, answers: seq<WriteReply>)
    requires Linked(max, l)
    ensures Linked(max, Happen(max, l, SendBody(body, answers)))
  {
    SendKeepsOutbound(max, l.pipe, l.bodies, body, answers);
    LongerWire(l.pipe.wire, l.pipe.Send(max, body, answers).0.wire, l.taken);
  }

  lemma {:induction false} PollKeepsLinked(max: nat, l: Link, blocking: bool, writes: seq<WriteReply>, wait: Wait,
                                           arrivals: seq<ReadReply>)
    requires Linked(max, l)
    ensures Linked(max, Happen(max, l, PollOnce(blocking, writes, wait, arrivals)))
  {
    PollKeepsBoth(max, l.pipe, l.bodies, l.delivered, blocking, writes, wait, arrivals);
    LongerWire(l.pipe.wire, l.pipe.Poll(max, blocking, writes, wait, arrivals).0.wire, l.taken);
  }

  lemma {:induction false} HappenKeepsLinked(max: nat, l: Link, e: Event)
    requires Linked(max, l)
    ensures Linked(max, Happen(max, l, e))
  {
    match e
    case SendBody(body, answers) => SendKeepsLinked(max, l, body, answers);
    case PollOnce(blocking, writes, wait, arrivals) => PollKeepsLinked(max, l, blocking, writes, wait, arrivals);
    case PeerReads(n) => ReadKeepsLinked(max, l, n);
  }

  /** A prefix of NUL-free bodies' encoding splits into the first few of them and part of the next. */
  lemma {:induction false} PrefixSplits(bodies: seq<Bytes>, s: Bytes) returns (k: nat, tail: Bytes)
    requires forall b :: b in bodies ==> NulFree(b)
    requires s <= EncodeAll(bodies)
    ensures k <= |bodies| && SplitsInto(s, bodies[..k], tail)
    ensures k < |bodies| ==> tail <= bodies[k]
    ensures k == |bodies| ==> tail == []
    decreases bodies
  {
    if bodies == [] || |s| <= |bodies[0]| {
      k, tail := 0, s;
      if bodies != [] {
        assert s == EncodeAll(bodies)[..|s|] == bodies[0][..|s|];
        assert NulFree(bodies[0]);
      }
      assert EncodeAll(bodies[..0]) + s == s;
    } else {
      var n := |bodies[0]|;
      var rest := s[n + 1..];
      assert rest == EncodeAll(bodies)[..|s|][n + 1..];
      assert EncodeAll(bodies)[n + 1..] == EncodeAll(bodies[1..]);
      assert rest <= EncodeAll(bodies[1..]);
      var j, t := PrefixSplits(bodies[1..], rest);
      k, tail := j + 1, t;
      assert bodies[..k][1..] == bodies[1..][..j];
      assert s == EncodeAll(bodies)[..|s|];
      assert s == Encode(bodies[0]) + rest;
      assert forall b :: b in bodies[..k] ==> b in bodies;
    }
  }

  /**
   * In any interleaving of sends, polls, partial or blocked writes and reads of any size:
   * the peer's decoder never rejects a message, what it has decoded is a prefix of the NUL-free bodies
   * accepted by `send`, and no more than 4 MiB is pending.
   */
  lemma {:induction false} PeerDecodesPrefix(max: nat, events: seq<Event>)
    ensures var l := LinkAfter(max, events);
            && l.peer.ok
            && |l.pipe.outbox.Pending()| <= MAX_WRITE_BACKLOG_BYTES
            && ((forall b :: b in l.bodies ==> NulFree(b)) ==> l.peer.messages <= l.bodies)
  {
    AlwaysLinked(max, events);
    var l := LinkAfter(max, events);
    var s := l.pipe.wire[..l.taken];
    assert s <= EncodeAll(l.bodies);
    PrefixFits(l.bodies, max, s);
    DrainMeaning(max, s);
    if forall b :: b in l.bodies ==> NulFree(b) {
      var k, tail := PrefixSplits(l.bodies, s);
      SplitUnique(s, l.peer.messages, l.peer.rest, l.bodies[..k], tail);
    }
  }

  /**
   * Once nothing is pending and the peer has read everything, it has decoded exactly the accepted
   * bodies if, and only if, none of them contains a NUL.
   */
  lemma {:induction false} DrainedLinkDeliversAll(max: nat, events: seq<Event>)
    requires LinkAfter(max, events).pipe.outbox.Pending() == []
    requires LinkAfter(max, events).taken == |LinkAfter(max, events).pipe.wire|
    ensures var l := LinkAfter(max, events);
            l.peer.messages == l.bodies <==> forall b :: b in l.bodies ==> NulFree(b)
  {
    AlwaysLinked(max, events);
    var l := LinkAfter(max, events);
    var s := EncodeAll(l.bodies);
    assert l.pipe.wire[..l.taken] == l.pipe.wire == s by {
      assert l.pipe.wire + [] == l.pipe.wire;
    }
    DrainMeaning(max, s);
    PrefixFits(l.bodies, max, s);
    if forall b :: b in l.bodies ==> NulFree(b) {
      assert s + [] == s;
      SplitUnique(s, l.peer.messages, l.peer.rest, l.bodies, []);
    }
  }

  /** Inbound messages are delivered in order, each once, all of them before the end of the stream is reported. */
  lemma {:induction false} InboundInOrder(max: nat, events: seq<Event>)
    ensures var p, delivered := LinkAfter(max, events).pipe, LinkAfter(max, events).delivered;
            && delivered + p.inbox.messages == Drain(max, p.received).messages
            && (p.eof ==> delivered == Drain(max, p.received).messages)
  {
    AlwaysLinked(max, events);
    var p, delivered := LinkAfter(max, events).pipe, LinkAfter(max, events).delivered;
    assert delivered + [] == delivered;
  }

  /** A poll that succeeds hands over every message read so far, in this call or before it. */
  lemma {:induction false} PollDeliversAll(max: nat, l: Link, blocking: bool, writes: seq<WriteReply>, wait: Wait,
                                           arrivals: seq<ReadReply>)
    requires Linked(max, l) && l.pipe.Poll(max, blocking, writes, wait, arrivals).1.Ok?
    ensures var m := Happen(max, l, PollOnce(blocking, writes, wait, arrivals));
            m.delivered == Drain(max, m.pipe.received).messages
  {
    hide Drain, Flush, Receive;
    HappenKeepsLinked(max, l, PollOnce(blocking, writes, wait, arrivals));
    var m := Happen(max, l, PollOnce(blocking, writes, wait, arrivals));
    assert m.delivered + [] == m.delivered;
  }

  /** What a poll reads, and the one failure that comes before everything else. */
  lemma {:induction false} PollReads(max: nat, p: Pipe, blocking: bool, writes: seq<WriteReply>, wait: Wait,
                                     arrivals: seq<ReadReply>)
    requires p.outbox.Valid()
    ensures var (q, r) := p.Poll(max, blocking, writes, wait, arrivals);
            var flushed := Flush(p.outbox.Pending(), writes, blocking);
            var read := Receive(max, p.inbox, arrivals, 65536);
            && (p.eof ==> q == p && r == Err(UnexpectedEof))
            && (!p.eof ==> q.wire == p.wire + flushed.wrote)
            && (!p.eof && flushed.result.Err? ==> r == Err(flushed.result.error) && q.received == p.received)
            && (!p.eof && flushed.result.Ok? && (wait.TimedOut? || wait.WaitFails?) ==>
                  q.received == p.received && (r.Ok? <==> wait.TimedOut?))
            && (!p.eof && flushed.result.Ok? && (wait.NoWait? || wait.Ready?) ==>
                  && q.received == p.received + read.bytes && q.eof == read.eof
                  && (r.Ok? <==> read.result.Ok?) && (r.Err? ==> r.error == read.result.error))
  {
    hide Flush, Receive;
  }

  /** `send` takes exactly the bodies that fit the message bound and the backlog bound. */
  lemma {:induction false} SendExact(max: nat, p: Pipe, body: Bytes, answers: seq<WriteReply>)
    requires p.outbox.Valid()
    ensures var (q, r) := p.Send(max, body, answers);
            && (r.Ok? <==> |body| < max && |p.outbox.Pending()| + |body| < 4194304)
            && (r.Err? ==> q == p && r.error == if |body| >= max then Oversized else BacklogFull)
            && (r.Ok? ==> q.wire + q.outbox.Pending() == p.wire + p.outbox.Pending() + body + [0])
  {
    if p.Send(max, body, answers).1.Ok? {
      AppendPending(p.wire, p.outbox, Encode(body));
      var o := Outbox(p.outbox.backlog + Encode(body), p.outbox.offset);
      assert p.wire + p.outbox.Pending() + body + [0] == p.wire + o.Pending();
      FlushMoves(p.(outbox := o), answers);
    }
  }

  lemma {:induction false} FlushMoves(p: Pipe, answers: seq<WriteReply>)
    requires p.outbox.Valid()
    ensures var q := p.FlushWith(answers, false).0;
            q.wire + q.outbox.Pending() == p.wire + p.outbox.Pending()
  {
    hide Flush;
    var wrote := Flush(p.outbox.Pending(), answers, false).wrote;
    assert p.outbox.Pending() == wrote + p.outbox.Pending()[|wrote|..];
  }

  /** One write takes as many of the pending bytes as the system says, from the front, or all of them. */
  lemma {:induction false} OneWrite(p: Pipe, n: nat)
    requires p.outbox.Valid() && 0 < n < |p.outbox.Pending()|
    ensures var (q, r) := p.FlushWith([Wrote(n)], false);
            && q.wire == p.wire + p.outbox.Pending()[..n]
            && q.outbox.Pending() == p.outbox.Pending()[n..]
            && r == Ok(())
  {
    var pending := p.outbox.Pending();
    assert [Wrote(n)][1..] == [];
    assert Flush(pending[n..], [], false) == Flushed([], Ok(()));
    assert pending[..n] + [] == pending[..n];
    assert Flush(pending, [Wrote(n)], false) == Flushed(pending[..n], Ok(()));
  }

  /** A system that takes all it is offered leaves nothing pending. */
  lemma {:induction false} WillingSystem(p: Pipe, n: nat, later: seq<WriteReply>, blocking: bool)
    requires p.outbox.Valid() && n >= |p.outbox.Pending()| > 0
    ensures var (q, r) := p.FlushWith([Wrote(n)] + later, blocking);
            q.outbox == Outbox([], 0) && q.wire == p.wire + p.outbox.Pending() && r == Ok(())
  {
    var pending := p.outbox.Pending();
    assert ([Wrote(n)] + later)[1..] == later;
    assert pending[|pending|..] == [] && pending[..|pending|] + [] == pending;
    assert Flush(pending[|pending|..], later, blocking) == Flushed([], Ok(()));
    assert Flush(pending, [Wrote(n)] + later, blocking) == Flushed(pending, Ok(()));
  }

  // ---- What the bound does not cover ----

  /** How much had been written when nothing was last pending. */
  function LastEmpty(max: nat, events: seq<Event>): nat {
    var p := LinkAfter(max, events).pipe;
    if events == [] || p.outbox.Pending() == [] then |p.wire| else LastEmpty(max, events[..|events| - 1])
  }

  /** The written part of the buffer is what was written since it was last empty. */
  ghost predicate Keeps(p: Pipe, emptyAt: nat) {
    p.outbox.Valid() && emptyAt <= |p.wire| && p.outbox.offset == |p.wire| - emptyAt
  }

  /** The buffer is stored only while something is pending. */
  ghost predicate Clean(p: Pipe) {
    p.outbox.Valid() && (p.outbox.Pending() == [] ==> p.outbox == Outbox([], 0))
  }

  lemma {:induction false} FlushKeeps(p: Pipe, answers: seq<WriteReply>, blocking: bool, emptyAt: nat)
    requires Keeps(p, emptyAt)
    ensures var q := p.FlushWith(answers, blocking).0;
            Clean(q) && Keeps(q, if q.outbox.Pending() == [] then |q.wire| else emptyAt)
  {
    hide Flush;
  }

  lemma {:induction false} HappenKeeps(max: nat, l: Link, e: Event, emptyAt: nat)
    requires l.taken <= |l.pipe.wire| && Clean(l.pipe) && Keeps(l.pipe, emptyAt)
    requires l.pipe.outbox.Pending() == [] ==> emptyAt == |l.pipe.wire|
    ensures var q := Happen(max, l, e).pipe;
            Clean(q) && Keeps(q, if q.outbox.Pending() == [] then |q.wire| else emptyAt)
  {
    hide Flush, Receive, PushOne, Pipe.FlushWith;
    match e
    case SendBody(body, answers) =>
      var o := Outbox(l.pipe.outbox.backlog + Encode(body), l.pipe.outbox.offset);
      FlushKeeps(l.pipe.(outbox := o), answers, false, emptyAt);
    case PollOnce(blocking, writes, _, _) => FlushKeeps(l.pipe, writes, blocking, emptyAt);
    case PeerReads(_) =>
  }

  lemma {:induction false} BufferKeeps(max: nat, events: seq<Event>)
    ensures Clean(LinkAfter(max, events).pipe)
    ensures Keeps(LinkAfter(max, events).pipe, LastEmpty(max, events))
    ensures LinkAfter(max, events).pipe.outbox.Pending() == [] ==>
              LastEmpty(max, events) == |LinkAfter(max, events).pipe.wire|
  {
    hide Happen;
    if events != [] {
      var before := events[..|events| - 1];
      BufferKeeps(max, before);
      HappenKeeps(max, LinkAfter(max, before), events[|events| - 1], LastEmpty(max, before));
    }
  }

  /**
   * In every run the stored buffer is the pending bytes and everything written since nothing was last
   * pending; nothing is stored exactly when nothing is pending. So what is stored beyond the 4 MiB bound on
   * pending bytes is at most what was written in between, and all three amounts can be observed.
   */
  lemma {:induction false} StoredExactly(max: nat, events: seq<Event>)
    ensures var p := LinkAfter(max, events).pipe;
            && (p.outbox.backlog == [] <==> p.outbox.Pending() == [])
            && LastEmpty(max, events) <= |p.wire|
            && |p.outbox.backlog| == |p.outbox.Pending()| + (|p.wire| - LastEmpty(max, events))
            && |p.outbox.backlog| <= MAX_WRITE_BACKLOG_BYTES + (|p.wire| - LastEmpty(max, events))
  {
    BufferKeeps(max, events);
    AlwaysLinked(max, events);
  }

  /** One empty body is sent per event; the system takes a byte each time, except the first. */
  function Dribble(n: nat): seq<Event> {
    if n == 0 then [SendBody([], [])] else Dribble(n - 1) + [SendBody([], [Wrote(1)])]
  }

  function Zeros(n: nat): (z: Bytes)
    ensures |z| == n && forall i :: 0 <= i < n ==> z[i] == 0
  {
    seq(n, i => 0)
  }

  /**
   * The backlog bound is on pending bytes only. A peer that always leaves one byte unread makes the
   * stored buffer grow without limit, because it is emptied only when nothing at all is pending.
   */
  lemma {:induction false} StoredBacklogUnbounded(max: nat, n: nat)
    requires 1 <= max
    ensures var o := LinkAfter(max, Dribble(n)).pipe.outbox;
            o == Outbox(Zeros(n + 1), n) && |o.Pending()| == 1
  {
    if n == 0 {
      FirstDribble(max);
    } else {
      StoredBacklogUnbounded(max, n - 1);
      DribbleOnce(max, LinkAfter(max, Dribble(n - 1)).pipe, n);
      LinkAppend(max, Dribble(n - 1), SendBody([], [Wrote(1)]));
    }
  }

  lemma {:induction false} LinkAppend(max: nat, events: seq<Event>, e: Event)
    ensures LinkAfter(max, events + [e]) == Happen(max, LinkAfter(max, events), e)
  {
  }

  lemma {:induction false} FirstDribble(max: nat)
    requires 1 <= max
    ensures LinkAfter(max, Dribble(0)).pipe.outbox == Outbox(Zeros(1), 0)
  {
  }

  lemma {:induction false} DribbleOnce(max: nat, p: Pipe, n: nat)
    requires 1 <= max && 1 <= n && p.outbox == Outbox(Zeros(n), n - 1)
    ensures p.Send(max, [], [Wrote(1)]).0.outbox == Outbox(Zeros(n + 1), n)
  {
  }

  /** A body that is one NUL byte is accepted, written and read, and arrives as two empty messages. */
  lemma {:induction false} NulBodySplits(max: nat)
    requires 2 <= max
    ensures var l := LinkAfter(max, [SendBody([0], [Wrote(2)]), PeerReads(2)]);
            && l.pipe.outbox.Pending() == [] && l.taken == |l.pipe.wire|
            && l.bodies == [[0]] && l.peer.messages == [[], []]
  {
    var sent, read := SendBody([0], [Wrote(2)]), PeerReads(2);
    LinkAppend(max, [], sent);
    LinkAppend(max, [sent], read);
    assert [] + [sent] == [sent] && [sent] + [read] == [sent, read];
    assert LinkAfter(max, []) == NEW_LINK;
    var wire: Bytes := [0, 0];
    assert Encode([0]) == wire && [] + Encode([0]) == wire;
    assert [Wrote(2)][1..] == [];
    assert Flush(wire, [Wrote(2)], false) == Flushed(wire[..2] + [], Ok(()));
    assert wire[..2] + [] == wire && [] + wire == wire && wire[2..] == [];
    var l := LinkAfter(max, [sent]);
    assert l.pipe.wire == wire && l.bodies == [] + [[0]];
    assert wire[0..] == wire && [] + wire[..2] == wire;
    TwoEmpty(max);
  }

  lemma {:induction false} TwoEmpty(max: nat)
    ensures Drain(max, [0, 0]).messages == [[], []]
  {
    var wire: Bytes := [0, 0];
    assert wire[1..] == [0] && wire[..0] == [];
    assert wire[1..][1..] == [] && wire[1..][..0] == [];
    assert Drain(max, []) == Drained([], [], true);
    assert Drain(max, [0]).messages == [[]] + [];
  }
}
