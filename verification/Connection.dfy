/** Request/response correlation and the event queue (crates/kwe-cdp/src/connection.rs). */
module Connections {
  import opened Common
  import opened Transport

  const DEFAULT_EVENT_QUEUE_LIMIT := 64
  const MAX_IN_FLIGHT_REQUESTS := 64

  datatype Response = Response(id: u32, session: Option<string>, payload: string)

  datatype Event = Event(name: string, params: string, session: Option<string>)

  datatype Slot = Slot(id: u32, session: Option<string>, response: Option<Response>)

  /** What reading a message as JSON gives: an `id` field makes it a reply, anything else needs a method. */
  datatype Envelope =
    | NotJson
    | Reply(id: Option<u64>, session: Option<string>, payload: string)
    | Notice(name: Option<string>, params: string, session: Option<string>)

  datatype ConnectionError = TooManyInFlight | BadMessage | Broken(cause: TransportError)

  function Position(pending: seq<Slot>, id: u32): (r: Option<nat>)
    ensures r.Some? ==> r.value < |pending| && pending[r.value].id == id
    ensures r.Some? ==> forall j :: 0 <= j < r.value ==> pending[j].id != id
    ensures r.None? ==> forall s :: s in pending ==> s.id != id
  {
    if pending == [] then None
    else if pending[0].id == id then Some(0)
    else
      var rest := Position(pending[1..], id);
      if rest.Some? then Some(rest.value + 1) else None
  }

  function Matching(pending: seq<Slot>, id: u32, session: Option<string>): (r: Option<nat>)
    ensures r.Some? ==> r.value < |pending| && pending[r.value].id == id && pending[r.value].session == session
  {
    if pending == [] then None
    else if pending[0].id == id && pending[0].session == session then Some(0)
    else
      var rest := Matching(pending[1..], id, session);
      if rest.Some? then Some(rest.value + 1) else None
  }

  /** `Vec::swap_remove`: the last element takes the place of the removed one. */
  function SwapRemove<T>(s: seq<T>, i: nat): seq<T>
    requires i < |s|
  {
    s[i := s[|s| - 1]][..|s| - 1]
  }

  function NextId(id: u32): u32 {
    if id == U32_MAX then 1 else id + 1
  }

  datatype Conn = Conn(nextId: u32, pending: seq<Slot>, events: seq<Event>, dropped: nat) {
    /** `accepted` is whether the transport took the request. */
    function Send(session: Option<string>, accepted: Result<(), TransportError>): (Conn, Result<u32, ConnectionError>) {
      if |pending| >= MAX_IN_FLIGHT_REQUESTS then (this, Err(TooManyInFlight))
      else
        var id := NextId(nextId);
        if accepted.Err? then (this.(nextId := id), Err(Broken(accepted.error)))
        else (this.(nextId := id, pending := pending + [Slot(id, session, None)]), Ok(id))
    }

    function Enqueue(e: Event): Conn {
      if |events| >= DEFAULT_EVENT_QUEUE_LIMIT then this.(events := events[1..] + [e], dropped := dropped + 1)
      else this.(events := events + [e])
    }

    function Route(m: Envelope): (Conn, Result<(), ConnectionError>) {
      match m
      case NotJson => (this, Err(BadMessage))
      case Reply(id, session, payload) =>
        if id.None? || id.value > U32_MAX then (this, Err(BadMessage))
        else
          var slot := Matching(pending, id.value, session);
          if slot.None? then (this, Ok(()))
          else
            var filled := pending[slot.value].(response := Some(Response(id.value, session, payload)));
            (this.(pending := pending[slot.value := filled]), Ok(()))
      case Notice(name, params, session) =>
        if name.None? then (this, Err(BadMessage))
        else (Enqueue(Event(name.value, params, session)), Ok(()))
    }

    /** A bad message ends the batch: the messages after it are lost. */
    function RouteAll(batch: seq<Envelope>): (Conn, Result<(), ConnectionError>)
      decreases |batch|
    {
      if batch == [] then (this, Ok(()))
      else
        var (next, r) := Route(batch[0]);
        if r.Err? then (next, r) else next.RouteAll(batch[1..])
    }

    function Take(id: u32): (Conn, Option<Response>) {
      var slot := Position(pending, id);
      if slot.None? || pending[slot.value].response.None? then (this, None)
      else (this.(pending := SwapRemove(pending, slot.value)), pending[slot.value].response)
    }

    function Discard(id: u32): Conn {
      var slot := Position(pending, id);
      if slot.None? then this else this.(pending := SwapRemove(pending, slot.value))
    }

    function NextEvent(): (Conn, Option<Event>) {
      if events == [] then (this, None) else (this.(events := events[1..]), Some(events[0]))
    }
  }

  const NEW_CONN: Conn := Conn(0, [], [], 0)

  /** The envelopes of a batch of message bodies, under some JSON reader. */
  function Parsed(parse: Bytes -> Envelope, bodies: seq<Bytes>): (r: seq<Envelope>)
    ensures |r| == |bodies|
    ensures forall i :: 0 <= i < |r| ==> r[i] == parse(bodies[i])
  {
    seq(|bodies|, i requires 0 <= i < |bodies| => parse(bodies[i]))
  }

  class Connection {
    const transport: PipeTransport
    var nextId: u32
    var pending: seq<Slot>
    var events: seq<Event>
    var dropped: nat

    ghost predicate Valid()
      reads this, transport, transport.decoder
    {
      transport.Valid()
    }

    function State(): Conn
      reads this
    {
      Conn(nextId, pending, events, dropped)
    }

    constructor (max: nat)
      ensures Valid() && State() == NEW_CONN && fresh(transport) && fresh(transport.decoder)
      ensures transport.State() == NEW_PIPE && transport.maxMessageBytes == max
    {
      transport := new PipeTransport(max);
      nextId := 0;
      pending := [];
      events := [];
      dropped := 0;
    }

    /** `bodyOf` stands for the JSON writer, which is given the id. */
    method SendRequest(session: Option<string>, bodyOf: u32 -> Bytes, answers: seq<WriteReply>)
      returns (r: Result<u32, ConnectionError>)
      requires Valid()
      modifies this, transport, transport.decoder
      ensures Valid()
      ensures var sent := old(transport.State()).Send(transport.maxMessageBytes, bodyOf(NextId(old(nextId))), answers);
              && (State(), r) == old(State()).Send(session, sent.1)
              && transport.State() == if r == Err(TooManyInFlight) then old(transport.State()) else sent.0
    {
      if |pending| >= MAX_IN_FLIGHT_REQUESTS {
        return Err(TooManyInFlight);
      }
      nextId := NextId(nextId);
      var id := nextId;
      var accepted := transport.Send(bodyOf(id), answers);
      if accepted.Err? {
        return Err(Broken(accepted.error));
      }
      pending := pending + [Slot(id, session, None)];
      return Ok(id);
    }

    method Poll(parse: Bytes -> Envelope, blocking: bool, writes: seq<WriteReply>, wait: Wait, arrivals: seq<ReadReply>)
      returns (r: Result<(), ConnectionError>)
      requires Valid()
      modifies this, transport, transport.decoder
      ensures Valid()
      ensures var (pipe, got) :=
                old(transport.State()).Poll(transport.maxMessageBytes, blocking, writes, wait, arrivals);
              && transport.State() == pipe
              && (State(), r) == if got.Err? then (old(State()), Err(Broken(got.error)))
                                 else old(State()).RouteAll(Parsed(parse, got.value))
    {
      var got := transport.Poll(blocking, writes, wait, arrivals);
      if got.Err? {
        return Err(Broken(got.error));
      }
      var bodies := got.value;
      ghost var batch := Parsed(parse, bodies);
      var i := 0;
      while i < |bodies|
        invariant i <= |bodies| && Valid()
        invariant transport.State() ==
                  old(transport.State()).Poll(transport.maxMessageBytes, blocking, writes, wait, arrivals).0
        invariant State().RouteAll(batch[i..]) == old(State()).RouteAll(batch)
      {
        assert batch[i..][0] == batch[i] && batch[i..][1..] == batch[i + 1..];
        var routed := RouteMessage(parse(bodies[i]));
        if routed.Err? {
          return routed;
        }
        i := i + 1;
      }
      return Ok(());
    }

    method RouteMessage(m: Envelope) returns (r: Result<(), ConnectionError>)
      modifies this
      ensures (State(), r) == old(State()).Route(m)
    {
      match m {
        case NotJson =>
          return Err(BadMessage);
        case Reply(id, session, payload) =>
          if id.None? || id.value > U32_MAX {
            return Err(BadMessage);
          }
          var slot := Matching(pending, id.value, session);
          if slot.Some? {
            var response := Response(id.value, session, payload);
            pending := pending[slot.value := pending[slot.value].(response := Some(response))];
          }
        case Notice(name, params, session) =>
          if name.None? {
            return Err(BadMessage);
          }
          EnqueueEvent(Event(name.value, params, session));
      }
      return Ok(());
    }

    method EnqueueEvent(e: Event)
      modifies this`events, this`dropped
      ensures State() == old(State()).Enqueue(e)
    {
      if |events| >= DEFAULT_EVENT_QUEUE_LIMIT {
        events := events[1..];
        dropped := dropped + 1;
      }
      events := events + [e];
    }

    method TakeResponse(id: u32) returns (r: Option<Response>)
      modifies this`pending
      ensures (State(), r) == old(State()).Take(id)
    {
      var index := Position(pending, id);
      if index.None? || pending[index.value].response.None? {
        return None;
      }
      r := pending[index.value].response;
      pending := SwapRemove(pending, index.value);
    }

    method DiscardPending(id: u32)
      modifies this`pending
      ensures State() == old(State()).Discard(id)
    {
      var index := Position(pending, id);
      if index.Some? {
        pending := SwapRemove(pending, index.value);
      }
    }

    method PopEvent() returns (r: Option<Event>)
      modifies this`events
      ensures (State(), r) == old(State()).NextEvent()
    {
      if |events| == 0 {
        return None;
      }
      r := Some(events[0]);
      events := events[1..];
    }
  }
}

/** What holds over whole runs of a connection. */
module ConnectionRuns {
  import opened Common
  import opened Transport
  import opened Connections

  datatype Op =
    | DoSend(session: Option<string>, accepted: Result<(), TransportError>)
    | DoRoute(m: Envelope)
    | DoTake(id: u32)
    | DoDiscard(id: u32)
    | DoPop

  datatype Outcome = Sent(id: u32) | Took(response: Response) | Popped(event: Event) | Nothing

  function Step(c: Conn, op: Op): (Conn, Outcome) {
    match op
    case DoSend(session, accepted) =>
      var (d, r) := c.Send(session, accepted);
      (d, if r.Ok? then Sent(r.value) else Nothing)
    case DoRoute(m) => (c.Route(m).0, Nothing)
    case DoTake(id) =>
      var (d, r) := c.Take(id);
      (d, if r.Some? then Took(r.value) else Nothing)
    case DoDiscard(id) => (c.Discard(id), Nothing)
    case DoPop =>
      var (d, r) := c.NextEvent();
      (d, if r.Some? then Popped(r.value) else Nothing)
  }

  function After(ops: seq<Op>): Conn {
    if ops == [] then NEW_CONN else Step(After(ops[..|ops| - 1]), ops[|ops| - 1]).0
  }

  function Out(ops: seq<Op>, k: nat): Outcome
    requires k < |ops|
  {
    Step(After(ops[..k]), ops[k]).1
  }

  /** Ids handed out so far, whether or not the transport then took the request. */
  function Allocated(ops: seq<Op>): nat {
    if ops == [] then 0
    else
      var before := ops[..|ops| - 1];
      Allocated(before) + if ops[|ops| - 1].DoSend? && |After(before).pending| < MAX_IN_FLIGHT_REQUESTS then 1 else 0
  }

  lemma {:induction false} AllocatedMonotone(ops: seq<Op>, k: nat)
    requires k <= |ops|
    ensures Allocated(ops[..k]) <= Allocated(ops)
    ensures k < |ops| && Out(ops, k).Sent? ==> Allocated(ops[..k]) < Allocated(ops)
  {
    if k == |ops| {
      assert ops[..k] == ops;
    } else {
      var before := ops[..|ops| - 1];
      if k < |before| {
        AllocatedMonotone(before, k);
        assert before[..k] == ops[..k] && Out(before, k) == Out(ops, k);
      } else {
        assert ops[..k] == before;
      }
    }
  }

  /** The n-th id handed out; zero before the first. */
  function IdOf(n: nat): u32 {
    if n == 0 then 0 else (n - 1) % U32_MAX + 1
  }

  lemma {:induction false} NextIdOf(n: nat)
    ensures NextId(IdOf(n)) == IdOf(n + 1)
  {
  }

  lemma {:induction false} IdCycles(ops: seq<Op>)
    ensures After(ops).nextId == IdOf(Allocated(ops))
  {
    hide IdOf, NextId;
    if ops == [] {
      assert IdOf(0) == 0 by {
        FirstIdOf();
      }
    } else {
      var before := ops[..|ops| - 1];
      IdCycles(before);
      NextIdOf(Allocated(before));
    }
  }

  lemma {:induction false} FirstIdOf()
    ensures IdOf(0) == 0
  {
  }

  lemma {:induction false} IdCounts(ops: seq<Op>)
    requires Allocated(ops) <= U32_MAX
    ensures After(ops).nextId == Allocated(ops)
  {
    IdCycles(ops);
  }

  lemma {:induction false} SentIdNext(c: Conn, op: Op)
    requires Step(c, op).1.Sent?
    ensures Step(c, op).1.id == NextId(c.nextId)
  {
  }

  lemma {:induction false} SentIdIs(ops: seq<Op>, i: nat)
    requires i < |ops| && Out(ops, i).Sent?
    ensures Out(ops, i).id == IdOf(Allocated(ops[..i]) + 1)
  {
    var before := ops[..i];
    IdCycles(before);
    SentIdNext(After(before), ops[i]);
    NextIdOf(Allocated(before));
  }

  lemma {:induction false} SentIdCounts(ops: seq<Op>, i: nat)
    requires Allocated(ops) <= U32_MAX && i < |ops| && Out(ops, i).Sent?
    ensures Out(ops, i).id == Allocated(ops[..i]) + 1
  {
    hide Out, Allocated;
    AllocatedMonotone(ops, i);
    SentIdIs(ops, i);
  }

  /**
   * In any run, however long, ids are non-zero, and two requests get the same id exactly when a multiple
   * of 2^32 - 1 allocations lies between them.
   */
  lemma {:induction false} IdsRepeatExactly(ops: seq<Op>, i: nat, j: nat)
    requires i < j < |ops| && Out(ops, i).Sent? && Out(ops, j).Sent?
    ensures Out(ops, i).id != 0
    ensures Out(ops, i).id == Out(ops, j).id <==> (Allocated(ops[..j]) - Allocated(ops[..i])) % U32_MAX == 0
  {
    hide IdOf, Out, Allocated;
    SentIdIs(ops, i);
    SentIdIs(ops, j);
    SameId(Allocated(ops[..i]), Allocated(ops[..j]));
  }

  lemma {:induction false} SameId(a: nat, b: nat)
    ensures IdOf(a + 1) != 0
    ensures IdOf(a + 1) == IdOf(b + 1) <==> (b - a) % U32_MAX == 0
  {
  }

  /** Ids are never zero and never repeat. */
  lemma {:induction false} IdsDistinct(ops: seq<Op>, i: nat, j: nat)
    requires Allocated(ops) <= U32_MAX
    requires i < j < |ops| && Out(ops, i).Sent? && Out(ops, j).Sent?
    ensures 0 < Out(ops, i).id < Out(ops, j).id
  {
    SentIdCounts(ops, i);
    SentIdCounts(ops, j);
    var before := ops[..j];
    assert before[..i] == ops[..i];
    assert Out(before, i) == Out(ops, i);
    AllocatedMonotone(before, i);
  }

  // ---- Correlation ----

  ghost predicate SentAt(ops: seq<Op>, i: nat, id: u32, session: Option<string>) {
    i < |ops| && Out(ops, i) == Sent(id) && ops[i].session == session
  }

  ghost predicate RoutedAt(ops: seq<Op>, j: nat, r: Response) {
    j < |ops| && ops[j] == DoRoute(Reply(Some(r.id), r.session, r.payload))
  }

  /** The slot of `id` was neither taken nor discarded strictly between `i` and `k`. */
  ghost predicate Untouched(ops: seq<Op>, id: u32, i: nat, k: nat)
    requires k <= |ops|
  {
    forall x :: i < x < k ==> ops[x] != DoDiscard(id) && (ops[x] == DoTake(id) ==> Out(ops, x) == Nothing)
  }

  /** A slot is the trace of one request, and a filled slot also of one message routed after it. */
  ghost predicate Explained(ops: seq<Op>, s: Slot) {
    exists i: nat :: SentAt(ops, i, s.id, s.session) && Untouched(ops, s.id, i, |ops|) && Answered(ops, i, s)
  }

  ghost predicate Answered(ops: seq<Op>, i: nat, s: Slot) {
    s.response.Some? ==>
      && s.response.value.id == s.id && s.response.value.session == s.session
      && exists j: nat :: i < j && RoutedAt(ops, j, s.response.value)
  }

  ghost predicate UniqueIds(pending: seq<Slot>) {
    forall a, b :: 0 <= a < b < |pending| ==> pending[a].id != pending[b].id
  }

  ghost predicate Tracked(ops: seq<Op>, c: Conn) {
    && |c.pending| <= MAX_IN_FLIGHT_REQUESTS
    && UniqueIds(c.pending)
    && (forall s :: s in c.pending ==> Explained(ops, s))
    && (forall s :: s in c.pending ==> 0 < s.id <= c.nextId)
  }

  lemma {:induction false} OutPrefix(ops: seq<Op>, op: Op, k: nat)
    requires k < |ops|
    ensures Out(ops + [op], k) == Out(ops, k)
  {
    assert (ops + [op])[..k] == ops[..k];
  }

  /** An explained slot stays explained when the next operation leaves it alone. */
  lemma {:induction false} StaysExplained(ops: seq<Op>, op: Op, s: Slot)
    requires Explained(ops, s)
    requires op != DoDiscard(s.id) && (op == DoTake(s.id) ==> Out(ops + [op], |ops|) == Nothing)
    ensures Explained(ops + [op], s)
  {
    var more := ops + [op];
    var i: nat :| SentAt(ops, i, s.id, s.session) && Untouched(ops, s.id, i, |ops|) && Answered(ops, i, s);
    OutPrefix(ops, op, i);
    forall x | i < x < |more|
      ensures more[x] != DoDiscard(s.id) && (more[x] == DoTake(s.id) ==> Out(more, x) == Nothing)
    {
      if x < |ops| {
        OutPrefix(ops, op, x);
      }
    }
    if s.response.Some? {
      var j: nat :| i < j && RoutedAt(ops, j, s.response.value);
      assert RoutedAt(more, j, s.response.value);
    }
    assert SentAt(more, i, s.id, s.session) && Untouched(more, s.id, i, |more|) && Answered(more, i, s);
  }

  lemma {:induction false} SwapRemoved(pending: seq<Slot>, k: nat)
    requires k < |pending| && UniqueIds(pending)
    ensures UniqueIds(SwapRemove(pending, k))
    ensures forall s :: s in SwapRemove(pending, k) ==> s in pending && s.id != pending[k].id
  {
  }

  lemma {:induction false} SendTracked(ops: seq<Op>, op: Op)
    requires op.DoSend? && Tracked(ops, After(ops)) && Allocated(ops + [op]) <= U32_MAX
    ensures Tracked(ops + [op], Step(After(ops), op).0)
  {
    hide After, Allocated, Explained, IdOf;
    var c := After(ops);
    forall s | s in c.pending
      ensures Explained(ops + [op], s)
    {
      StaysExplained(ops, op, s);
    }
    if |c.pending| < MAX_IN_FLIGHT_REQUESTS {
      SendExplained(ops, op);
    }
  }

  /** A request that was sent explains its own slot, under an id above all before it. */
  lemma {:induction false} SendExplained(ops: seq<Op>, op: Op)
    requires op.DoSend? && Allocated(ops + [op]) <= U32_MAX && |After(ops).pending| < MAX_IN_FLIGHT_REQUESTS
    ensures NextId(After(ops).nextId) == After(ops).nextId + 1
    ensures op.accepted.Ok? ==> Explained(ops + [op], Slot(NextId(After(ops).nextId), op.session, None))
  {
    var more := ops + [op];
    assert more[..|ops|] == ops;
    IdCounts(ops);
    if op.accepted.Ok? {
      var s := Slot(NextId(After(ops).nextId), op.session, None);
      assert SentAt(more, |ops|, s.id, s.session) && Untouched(more, s.id, |ops|, |more|) && Answered(more, |ops|, s);
    }
  }

  lemma {:induction false} RouteTracked(ops: seq<Op>, op: Op)
    requires op.DoRoute? && Tracked(ops, After(ops))
    ensures Tracked(ops + [op], Step(After(ops), op).0)
  {
    var c := After(ops);
    var more := ops + [op];
    forall s | s in c.pending
      ensures Explained(more, s)
    {
      StaysExplained(ops, op, s);
    }
    var d := Step(c, op).0;
    if op.m.Reply? && d.pending != c.pending {
      var slot := Matching(c.pending, op.m.id.value, op.m.session).value;
      FilledExplained(ops, op, c.pending[slot]);
    }
  }

  lemma {:induction false} FilledExplained(ops: seq<Op>, op: Op, s: Slot)
    requires Explained(ops, s) && op.DoRoute? && op.m.Reply? && op.m.id == Some(s.id) && op.m.session == s.session
    ensures Explained(ops + [op], s.(response := Some(Response(s.id, s.session, op.m.payload))))
  {
    var more := ops + [op];
    var r := Response(s.id, s.session, op.m.payload);
    StaysExplained(ops, op, s);
    var i: nat :| SentAt(more, i, s.id, s.session) && Untouched(more, s.id, i, |more|) && Answered(more, i, s);
    assert more[|ops|] == op;
    assert RoutedAt(more, |ops|, r);
    assert i < |ops|;
    assert Answered(more, i, s.(response := Some(r)));
    assert SentAt(more, i, s.id, s.session) && Untouched(more, s.id, i, |more|);
  }

  lemma {:induction false} RemovalTracked(ops: seq<Op>, op: Op)
    requires op.DoTake? || op.DoDiscard?
    requires Tracked(ops, After(ops))
    ensures Tracked(ops + [op], Step(After(ops), op).0)
  {
    var c := After(ops);
    var more := ops + [op];
    assert more[..|ops|] == ops;
    var d := Step(c, op).0;
    var slot := Position(c.pending, op.id);
    if slot.Some? && d.pending != c.pending {
      SwapRemoved(c.pending, slot.value);
    }
    forall s | s in d.pending
      ensures Explained(more, s)
    {
      StaysExplained(ops, op, s);
    }
  }

  lemma {:induction false} AlwaysTracked(ops: seq<Op>)
    requires Allocated(ops) <= U32_MAX
    ensures Tracked(ops, After(ops))
  {
    if ops != [] {
      var before := ops[..|ops| - 1];
      var op := ops[|ops| - 1];
      assert ops == before + [op];
      AlwaysTracked(before);
      match op
      case DoSend(_, _) => SendTracked(before, op);
      case DoRoute(_) => RouteTracked(before, op);
      case DoTake(_) => RemovalTracked(before, op);
      case DoDiscard(_) => RemovalTracked(before, op);
      case DoPop =>
        forall s | s in After(before).pending
          ensures Explained(ops, s)
        {
          StaysExplained(before, op, s);
        }
    }
  }

  /** The same about a run that ends just before the response is taken. */
  lemma {:induction false} TakenIsExplained(ops: seq<Op>, id: u32) returns (i: nat, j: nat)
    requires Tracked(ops, After(ops)) && After(ops).Take(id).1.Some?
    ensures var r := After(ops).Take(id).1.value;
            r.id == id && i < j && SentAt(ops, i, id, r.session) && RoutedAt(ops, j, r) && Untouched(ops, id, i, |ops|)
  {
    var c := After(ops);
    var s := c.pending[Position(c.pending, id).value];
    assert s in c.pending && Explained(ops, s);
    i :| SentAt(ops, i, s.id, s.session) && Untouched(ops, s.id, i, |ops|) && Answered(ops, i, s);
    j :| i < j && RoutedAt(ops, j, s.response.value);
  }

  /**
   * A response handed out for `id` was routed after the request with that id, in the same session,
   * and in between the slot was neither taken nor discarded.
   */
  lemma {:induction false} ResponseCorrelates(ops: seq<Op>, k: nat) returns (i: nat, j: nat)
    requires Allocated(ops) <= U32_MAX
    requires k < |ops| && ops[k].DoTake? && Out(ops, k).Took?
    ensures var r := Out(ops, k).response;
            && r.id == ops[k].id
            && i < j < k
            && SentAt(ops, i, r.id, r.session)
            && RoutedAt(ops, j, r)
            && Untouched(ops, r.id, i, k)
  {
    var before := ops[..k];
    AllocatedMonotone(ops, k);
    AlwaysTracked(before);
    i, j := TakenIsExplained(before, ops[k].id);
    Longer(ops, k, i, j, Out(ops, k).response);
  }

  /** What happened in a part of a run happened in the run. */
  lemma {:induction false} Longer(ops: seq<Op>, k: nat, i: nat, j: nat, r: Response)
    requires k <= |ops|
    requires SentAt(ops[..k], i, r.id, r.session) && RoutedAt(ops[..k], j, r) && Untouched(ops[..k], r.id, i, k)
    ensures SentAt(ops, i, r.id, r.session) && RoutedAt(ops, j, r) && Untouched(ops, r.id, i, k)
  {
    forall x: nat | x < k
      ensures Out(ops[..k], x) == Out(ops, x) && ops[..k][x] == ops[x]
    {
      assert ops[..k][..x] == ops[..x];
    }
  }

  lemma {:induction false} RoutePending(c: Conn, m: Envelope)
    ensures |c.Route(m).0.pending| == |c.pending|
  {
    hide Matching;
  }

  lemma {:induction false} StepPending(c: Conn, op: Op)
    requires |c.pending| <= MAX_IN_FLIGHT_REQUESTS
    ensures |Step(c, op).0.pending| <= MAX_IN_FLIGHT_REQUESTS
  {
    hide Conn.Route, Position;
    if op.DoRoute? {
      RoutePending(c, op.m);
    }
  }

  /** At most 64 requests are ever pending, ids repeating or not. */
  lemma {:induction false} PendingBounded(ops: seq<Op>)
    ensures |After(ops).pending| <= MAX_IN_FLIGHT_REQUESTS
  {
    hide Step;
    if ops != [] {
      PendingBounded(ops[..|ops| - 1]);
      StepPending(After(ops[..|ops| - 1]), ops[|ops| - 1]);
    }
  }

  lemma {:induction false} PendingDistinct(ops: seq<Op>)
    requires Allocated(ops) <= U32_MAX
    ensures UniqueIds(After(ops).pending)
  {
    AlwaysTracked(ops);
  }

  /** Two responses handed out in one run answer two different requests. */
  lemma {:induction false} TakenOnce(ops: seq<Op>, x: nat, k: nat)
    requires Allocated(ops) <= U32_MAX
    requires x < k < |ops| && Out(ops, x).Took? && Out(ops, k).Took?
    ensures Out(ops, x).response.id != Out(ops, k).response.id
  {
    var i, j := ResponseCorrelates(ops, x);
    var i', j' := ResponseCorrelates(ops, k);
    if Out(ops, x).response.id == Out(ops, k).response.id {
      NotTakenBetween(ops, i', x, k, Out(ops, k).response.id);
      SentOnce(ops, i, i', Out(ops, k).response.id);
    }
  }

  lemma {:induction false} NotTakenBetween(ops: seq<Op>, i: nat, x: nat, k: nat, id: u32)
    requires x < k <= |ops| && Untouched(ops, id, i, k)
    requires ops[x] == DoDiscard(id) || (ops[x] == DoTake(id) && Out(ops, x).Took?)
    ensures x <= i
  {
  }

  lemma {:induction false} SentOnce(ops: seq<Op>, i: nat, j: nat, id: u32)
    requires Allocated(ops) <= U32_MAX
    requires i < |ops| && j < |ops| && Out(ops, i) == Sent(id) && Out(ops, j) == Sent(id)
    ensures i == j
  {
    if i < j {
      IdsDistinct(ops, i, j);
    } else if j < i {
      IdsDistinct(ops, j, i);
    }
  }

  /** Once a request is discarded, no response is ever handed out for it. */
  lemma {:induction false} NothingAfterDiscard(ops: seq<Op>, i: nat, x: nat, k: nat, id: u32)
    requires Allocated(ops) <= U32_MAX
    requires i < x < k < |ops| && Out(ops, i) == Sent(id) && ops[x] == DoDiscard(id) && ops[k] == DoTake(id)
    ensures Out(ops, k) == Nothing
  {
    if Out(ops, k).Took? {
      var i', j' := ResponseCorrelates(ops, k);
      NotTakenBetween(ops, i', x, k, id);
      SentOnce(ops, i, i', id);
    }
  }

  // ---- The other half: answers arrive ----

  lemma {:induction false} MatchingFinds(pending: seq<Slot>, k: nat)
    requires UniqueIds(pending) && k < |pending|
    ensures Matching(pending, pending[k].id, pending[k].session) == Some(k)
    ensures Position(pending, pending[k].id) == Some(k)
  {
    if k > 0 {
      MatchingFinds(pending[1..], k - 1);
    }
  }

  /** A request is taken on exactly when fewer than 64 wait and the transport accepts it. */
  lemma {:induction false} SentExactly(c: Conn, session: Option<string>, accepted: Result<(), TransportError>)
    ensures var (d, r) := c.Send(session, accepted);
            && (r.Ok? <==> |c.pending| < 64 && accepted.Ok?)
            && (r.Ok? ==> r.value == d.nextId && d.pending == c.pending + [Slot(d.nextId, session, None)])
            && (r.Err? ==> d.pending == c.pending)
            && (r.Err? ==> r.error == if |c.pending| >= 64 then TooManyInFlight else Broken(accepted.error))
            && (d.events, d.dropped) == (c.events, c.dropped)
  {
  }

  ghost predicate Holds(c: Conn, s: Slot) {
    s in c.pending
  }

  /** The reply is for the slot. */
  predicate Hits(m: Envelope, s: Slot) {
    m.Reply? && m.id == Some(s.id) && m.session == s.session
  }

  lemma {:induction false} SwapKeeps(pending: seq<Slot>, k: nat, s: Slot)
    requires k < |pending| && s in pending && s != pending[k]
    ensures s in SwapRemove(pending, k)
  {
    var x :| 0 <= x < |pending| && pending[x] == s;
    var after := SwapRemove(pending, k);
    assert if x < |pending| - 1 then after[x] == s else after[k] == s;
  }

  /** The slot of a request stays until it is taken or discarded, and holds the last reply for it. */
  lemma {:induction false} StepKeepsSlot(c: Conn, op: Op, s: Slot)
    requires UniqueIds(c.pending) && Holds(c, s)
    requires op != DoDiscard(s.id) && (op == DoTake(s.id) ==> s.response.None?)
    ensures Holds(Step(c, op).0,
                  if op.DoRoute? && Hits(op.m, s)
                  then s.(response := Some(Response(s.id, s.session, op.m.payload))) else s)
  {
    hide Matching, Position;
    var k :| 0 <= k < |c.pending| && c.pending[k] == s;
    MatchingFinds(c.pending, k);
    match op
    case DoSend(_, _) =>
    case DoRoute(m) => RouteKeepsSlot(c, m, k);
    case DoTake(id) =>
      var slot := Position(c.pending, id);
      if slot.Some? && id != s.id {
        SwapKeeps(c.pending, slot.value, s);
      }
    case DoDiscard(id) =>
      var slot := Position(c.pending, id);
      if slot.Some? {
        SwapKeeps(c.pending, slot.value, s);
      }
    case DoPop =>
  }

  lemma {:induction false} RouteKeepsSlot(c: Conn, m: Envelope, k: nat)
    requires UniqueIds(c.pending) && k < |c.pending|
    ensures var s, d := c.pending[k], c.Route(m).0;
            && |d.pending| == |c.pending|
            && d.pending[k] == if Hits(m, s) then s.(response := Some(Response(s.id, s.session, m.payload))) else s
  {
    hide Matching;
    MatchingFinds(c.pending, k);
  }

  /** Routing the reply makes the next take hand out exactly its payload. */
  lemma {:induction false} RouteThenTake(c: Conn, s: Slot, payload: string)
    requires UniqueIds(c.pending) && s in c.pending
    ensures c.Route(Reply(Some(s.id), s.session, payload)).0.Take(s.id).1 == Some(Response(s.id, s.session, payload))
  {
    hide Matching, Position;
    var k :| 0 <= k < |c.pending| && c.pending[k] == s;
    var d := c.Route(Reply(Some(s.id), s.session, payload)).0;
    RouteKeepsSlot(c, Reply(Some(s.id), s.session, payload), k);
    MatchingFinds(c.pending, k);
    MatchingFinds(d.pending, k);
  }

  /** The last reply for the request routed before `k`, if any. */
  function LastReply(ops: seq<Op>, id: u32, session: Option<string>, i: nat, k: nat): Option<Response>
    requires i < k <= |ops|
    decreases k
  {
    if k == i + 1 then None
    else if ops[k - 1].DoRoute? && Hits(ops[k - 1].m, Slot(id, session, None)) then
      Some(Response(id, session, ops[k - 1].m.payload))
    else LastReply(ops, id, session, i, k - 1)
  }

  lemma {:induction false} SlotHolds(ops: seq<Op>, i: nat, k: nat, id: u32, session: Option<string>)
    requires Allocated(ops) <= U32_MAX
    requires i < k <= |ops| && SentAt(ops, i, id, session) && Untouched(ops, id, i, k)
    ensures Holds(After(ops[..k]), Slot(id, session, LastReply(ops, id, session, i, k)))
    decreases k
  {
    hide Conn.Route, Conn.Take, Conn.Discard, Conn.Send, Allocated;
    assert ops[..k][..k - 1] == ops[..k - 1] && ops[..k][k - 1] == ops[k - 1];
    var c := After(ops[..k - 1]);
    if k == i + 1 {
      SentExactly(c, session, ops[i].accepted);
    } else {
      SlotHolds(ops, i, k - 1, id, session);
      AllocatedMonotone(ops, k - 1);
      PendingDistinct(ops[..k - 1]);
      var s := Slot(id, session, LastReply(ops, id, session, i, k - 1));
      TakeHandsOut(c, s);
      StepKeepsSlot(c, ops[k - 1], s);
    }
  }

  lemma {:induction false} TakeHandsOut(c: Conn, s: Slot)
    requires UniqueIds(c.pending) && s in c.pending
    ensures c.Take(s.id).1 == s.response
  {
    hide Position;
    var k :| 0 <= k < |c.pending| && c.pending[k] == s;
    MatchingFinds(c.pending, k);
  }

  /**
   * After a request was sent, and with no take or discard of it since that removed it, a take hands out the
   * last reply routed for its id and session, and nothing exactly when there was none.
   */
  lemma {:induction false} AnswerReaches(ops: seq<Op>, i: nat, k: nat, session: Option<string>)
    requires Allocated(ops) <= U32_MAX
    requires i < k < |ops| && ops[k].DoTake? && SentAt(ops, i, ops[k].id, session) && Untouched(ops, ops[k].id, i, k)
    ensures var reply := LastReply(ops, ops[k].id, session, i, k);
            Out(ops, k) == if reply.Some? then Took(reply.value) else Nothing
  {
    hide Conn.Take, Conn.Send, Conn.Route;
    SlotHolds(ops, i, k, ops[k].id, session);
    AllocatedMonotone(ops, k);
    PendingDistinct(ops[..k]);
    TakeHandsOut(After(ops[..k]), Slot(ops[k].id, session, LastReply(ops, ops[k].id, session, i, k)));
  }

  // ---- The event queue ----

  /** An arriving event pushes another one out exactly when 64 are queued, and then the oldest. */
  lemma {:induction false} EnqueueExact(c: Conn, e: Event)
    ensures var d := c.Enqueue(e);
            && d.events == (if |c.events| < 64 then c.events else c.events[1..]) + [e]
            && d.dropped == c.dropped + (if |c.events| < 64 then 0 else 1)
            && d.pending == c.pending && d.nextId == c.nextId
  {
  }

  /** All events routed so far, in arrival order. */
  function Arrived(ops: seq<Op>): seq<Event> {
    if ops == [] then []
    else
      var last := ops[|ops| - 1];
      Arrived(ops[..|ops| - 1]) + Arriving(last)
  }

  function PoppedCount(ops: seq<Op>): nat {
    if ops == [] then 0
    else PoppedCount(ops[..|ops| - 1]) + if Out(ops, |ops| - 1).Popped? then 1 else 0
  }

  ghost predicate Conserved(c: Conn, arrived: seq<Event>, popped: nat) {
    && |c.events| <= DEFAULT_EVENT_QUEUE_LIMIT
    && popped + c.dropped + |c.events| == |arrived|
    && c.events == LastN(arrived, |c.events|)
  }

  lemma {:induction false} EnqueueConserves(c: Conn, arrived: seq<Event>, popped: nat, e: Event)
    requires Conserved(c, arrived, popped)
    ensures Conserved(c.Enqueue(e), arrived + [e], popped)
  {
  }

  lemma {:induction false} PopConserves(c: Conn, arrived: seq<Event>, popped: nat)
    requires Conserved(c, arrived, popped)
    ensures var (d, e) := c.NextEvent();
            && Conserved(d, arrived, if e.Some? then popped + 1 else popped)
            && (e.Some? ==> e.value == arrived[popped + c.dropped])
            && (e.None? <==> popped + c.dropped == |arrived|)
  {
  }

  /**
   * The queue is the most recent part of everything that arrived, at most 64 events; popped, dropped
   * and queued events add up to those that arrived.
   */
  lemma {:induction false} EventsConserved(ops: seq<Op>)
    ensures Conserved(After(ops), Arrived(ops), PoppedCount(ops))
  {
    if ops != [] {
      var before := ops[..|ops| - 1];
      EventsConserved(before);
      StepConserves(After(before), ops[|ops| - 1], Arrived(before), PoppedCount(before));
    }
  }

  function Arriving(op: Op): seq<Event> {
    if op.DoRoute? && op.m.Notice? && op.m.name.Some? then [Event(op.m.name.value, op.m.params, op.m.session)] else []
  }

  lemma {:induction false} StepConserves(c: Conn, op: Op, arrived: seq<Event>, popped: nat)
    requires Conserved(c, arrived, popped)
    ensures var (d, o) := Step(c, op);
            Conserved(d, arrived + Arriving(op), if o.Popped? then popped + 1 else popped)
  {
    if Arriving(op) != [] {
      EnqueueConserves(c, arrived, popped, Arriving(op)[0]);
    } else {
      assert arrived + [] == arrived;
      PopConserves(c, arrived, popped);
    }
  }

  /** Events are popped in arrival order: the next one follows everything popped or dropped so far. */
  lemma {:induction false} PopsInOrder(ops: seq<Op>, k: nat)
    requires k < |ops| && ops[k] == DoPop
    ensures var before := ops[..k];
            var next := PoppedCount(before) + After(before).dropped;
            && next <= |Arrived(before)|
            && Out(ops, k) == if next < |Arrived(before)| then Popped(Arrived(before)[next]) else Nothing
  {
    var before := ops[..k];
    EventsConserved(before);
    PopConserves(After(before), Arrived(before), PoppedCount(before));
  }

  // ---- Batches ----

  predicate Bad(m: Envelope) {
    match m
    case NotJson => true
    case Reply(id, _, _) => id.None? || id.value > U32_MAX
    case Notice(name, _, _) => name.None?
  }

  function Routes(batch: seq<Envelope>): seq<Op> {
    if batch == [] then [] else [DoRoute(batch[0])] + Routes(batch[1..])
  }

  /** A polled batch routes its messages one by one up to the first bad one; those after it are lost. */
  lemma {:induction false} BatchStopsAtBad(ops: seq<Op>, batch: seq<Envelope>) returns (n: nat)
    ensures n <= |batch| && (forall i :: 0 <= i < n ==> !Bad(batch[i])) && (n < |batch| ==> Bad(batch[n]))
    ensures After(ops).RouteAll(batch) ==
            (After(ops + Routes(batch[..n])), if n < |batch| then Err(BadMessage) else Ok(()))
    decreases |batch|
  {
    hide Step, Bad, After, Conn.Route;
    if batch == [] {
      n := 0;
      assert ops + Routes(batch[..0]) == ops;
    } else if Bad(batch[0]) {
      n := 0;
      assert ops + Routes(batch[..0]) == ops;
      BadChangesNothing(After(ops), batch[0]);
    } else {
      var step := [DoRoute(batch[0])];
      RouteOne(ops, batch[0]);
      var m := BatchStopsAtBad(ops + step, batch[1..]);
      n := m + 1;
      RoutesCons(batch, n);
      assert ops + (step + Routes(batch[1..][..m])) == (ops + step) + Routes(batch[1..][..m]);
    }
  }

  /** A good event behind an unreadable message is lost. */
  lemma {:induction false} GoodMessageLost()
    ensures var event := Notice(Some("Page.loadEventFired"), "", None);
            && NEW_CONN.RouteAll([NotJson, event]) == (NEW_CONN, Err(BadMessage))
            && NEW_CONN.RouteAll([event]).0.events == [Event("Page.loadEventFired", "", None)]
  {
    var event := Notice(Some("Page.loadEventFired"), "", None);
    assert [event][1..] == [];
  }

  lemma {:induction false} BadChangesNothing(c: Conn, m: Envelope)
    requires Bad(m)
    ensures c.Route(m) == (c, Err(BadMessage))
  {
  }

  lemma {:induction false} RouteOne(ops: seq<Op>, m: Envelope)
    ensures After(ops + [DoRoute(m)]) == After(ops).Route(m).0
    ensures After(ops).Route(m).1 == if Bad(m) then Err(BadMessage) else Ok(())
  {
  }

  lemma {:induction false} RoutesCons(batch: seq<Envelope>, n: nat)
    requires 0 < n <= |batch|
    ensures Routes(batch[..n]) == [DoRoute(batch[0])] + Routes(batch[1..][..n - 1])
  {
    assert batch[..n][1..] == batch[1..][..n - 1];
  }
}
