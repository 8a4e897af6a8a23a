/**
 * The apply client's request lane (apps/kwe-manager/src/applyclient.cpp): one operation in flight, the
 * rest queued, with eviction, a retry timer and a deadline.
 *
 * Every operation the lane accepts gets a ticket, in order of acceptance; `log` records what happens
 * to tickets. Each connection attempt is told whether it is refused on the spot, because the socket
 * reports that from inside the call that connects.
 */
module ApplyLane {
  import opened Common

  const INITIAL_RETRY_MS := 5000
  const MAXIMUM_RETRY_MS := 30000
  const MAX_QUEUED_OPERATIONS := 64

  datatype Method = ListOutputs | Apply | Restore | Assignments

  datatype State = Idle | ListingOutputs | Applying | Restoring | Applied | Failed

  datatype Pending = Pending(ticket: nat, kind: Method, target: string)

  datatype Ending = Replied(ok: bool) | Abandoned | Evicted

  datatype Mark =
    | Accepted(ticket: nat)
    | Began(ticket: nat)
    | Wrote(ticket: nat)
    | Settled(ticket: nat, how: Ending)

  /** What arrived on the socket: part of a line, something unusable, or the daemon's answer. */
  datatype Arrival = Incomplete | Unusable | Answer(ok: bool)

  datatype Lane = Lane(
    queue: seq<Pending>,
    current: Option<Pending>,
    retryArmed: bool,
    deadlineArmed: bool,
    retryDelay: nat,
    state: State,
    lastFailed: Option<(Method, string)>,
    accepted: nat,
    log: seq<Mark>,
    strays: nat)
  {
    predicate Busy() {
      current.Some? || queue != []
    }

    function Note(m: Mark): Lane {
      this.(log := log + [m])
    }

    function RetryLater(): Lane {
      if retryArmed then this
      else
        this.(retryArmed := true,
              retryDelay := if retryDelay * 2 <= MAXIMUM_RETRY_MS then retryDelay * 2 else MAXIMUM_RETRY_MS)
    }

    /** Putting the operation in flight back at the front may push the last queued one out. */
    function Requeue(): (r: Lane)
      requires current.Some?
      ensures log <= r.log
    {
      var kept := if |queue| >= MAX_QUEUED_OPERATIONS
                  then Note(Settled(queue[|queue| - 1].ticket, Evicted)).(queue := queue[..|queue| - 1])
                  else this;
      kept.(queue := [current.value] + kept.queue, current := None)
    }

    /** A failure that keeps the operation and tries again later. */
    function FailAndRequeue(): (r: Lane)
      ensures log <= r.log
    {
      if current.None? then this.(deadlineArmed := false).RetryLater()
      else
        var l := this.(deadlineArmed := false).Requeue();
        (if current.value.kind == Assignments then l else l.(state := Failed)).RetryLater()
    }

    /** A failure that gives the operation up and goes on with the next. */
    function FailAndAbandon(refused: bool): (r: Lane)
      ensures log <= r.log
    {
      if current.None? then this.(deadlineArmed := false).RetryLater()
      else
        var p := current.value;
        var l := Note(Settled(p.ticket, Abandoned)).(deadlineArmed := false, current := None);
        var told := if p.kind == Assignments then l else l.(state := Failed, lastFailed := Some((p.kind, p.target)));
        told.Drain(refused)
    }

    function Begin(p: Pending, refused: bool): (r: Lane)
      ensures log <= r.log
    {
      var l := Note(Began(p.ticket)).(current := Some(p), deadlineArmed := true, state := StateOf(p.kind, state));
      if refused then l.FailAndRequeue() else l
    }

    function Drain(refused: bool): (r: Lane)
      ensures log <= r.log
    {
      if queue == [] then this else this.(queue := queue[1..]).Begin(queue[0], refused)
    }

    function Accept(kind: Method, target: string): (r: (Lane, Pending))
      ensures log <= r.0.log
    {
      (Note(Accepted(accepted)).(accepted := accepted + 1), Pending(accepted, kind, target))
    }

    function Send(kind: Method, target: string, refused: bool): (r: Lane)
      ensures log <= r.log
    {
      var (l, p) := Accept(kind, target);
      if !Busy() then l.Begin(p, refused)
      else if |queue| >= MAX_QUEUED_OPERATIONS then
        if kind == Assignments then this else this.(state := Failed)
      else l.(queue := queue + [p])
    }

    /** The operation in flight is answered; a successful change asks for the assignments again. */
    function Finish(ok: bool, refreshRefused: bool, nextRefused: bool): (r: Lane)
      ensures log <= r.log
    {
      var l := this.(deadlineArmed := false, current := None);
      match current
      case None =>
        (if ok then l else l.(state := Failed, lastFailed := None)).Drain(nextRefused)
      case Some(p) =>
        var settled := l.Note(Settled(p.ticket, Replied(ok)));
        var told := if ok then settled.(state := StateAfter(p.kind, state))
                    else if p.kind == Assignments then settled
                    else settled.(state := Failed, lastFailed := Some((p.kind, p.target)));
        (if ok && (p.kind == Apply || p.kind == Restore) then told.Send(Assignments, "", refreshRefused) else told)
        .Drain(nextRefused)
    }

    function Receive(a: Arrival, refreshRefused: bool, nextRefused: bool): (r: Lane)
      ensures log <= r.log
    {
      match a
      case Incomplete => this
      case Unusable => FailAndRequeue()
      case Answer(ok) => this.(retryDelay := INITIAL_RETRY_MS).Finish(ok, refreshRefused, nextRefused)
    }

    /** With nothing in flight the request written is for the assignments, and belongs to no ticket. */
    function Write(): (r: Lane)
      ensures log <= r.log
    {
      if current.None? then this.(strays := strays + 1) else Note(Wrote(current.value.ticket))
    }

    function DeadlineFires(refused: bool): (r: Lane)
      ensures log <= r.log
    {
      if !deadlineArmed then this
      else
        var l := this.(deadlineArmed := false);
        if current.None? then l else l.FailAndAbandon(refused)
    }

    function RetryFires(refused: bool): (r: Lane)
      ensures log <= r.log
    {
      if !retryArmed then this
      else
        var l := this.(retryArmed := false);
        if current.Some? then l else l.Drain(refused)
    }

    function Reset(): (r: Lane)
      ensures log <= r.log
    {
      if Busy() then this else this.(state := Idle)
    }

    /** Try Again: a new operation like the one that failed last, under a new ticket. */
    function TryAgain(refused: bool): (r: Lane)
      ensures log <= r.log
    {
      if lastFailed.None? || lastFailed.value.0 == Assignments then this
      else Send(lastFailed.value.0, lastFailed.value.1, refused)
    }
  }

  function StateOf(kind: Method, state: State): State {
    match kind
    case ListOutputs => ListingOutputs
    case Apply => Applying
    case Restore => Restoring
    case Assignments => state
  }

  function StateAfter(kind: Method, state: State): State {
    match kind
    case ListOutputs => Idle
    case Apply => Applied
    case Restore => Idle
    case Assignments => state
  }

  const NEW_LANE: Lane := Lane([], None, false, false, INITIAL_RETRY_MS, Idle, None, 0, [], 0)

  /** The client; `accepted`, `log`, `strays` and the tickets of operations only serve to speak about it. */
  class ApplyClient {
    var queue: seq<Pending>
    var current: Option<Pending>
    var retryArmed: bool
    var deadlineArmed: bool
    var retryDelay: nat
    var state: State
    var lastFailed: Option<(Method, string)>
    var accepted: nat
    ghost var log: seq<Mark>
    ghost var strays: nat

    ghost function Now(): Lane
      reads this
    {
      Lane(queue, current, retryArmed, deadlineArmed, retryDelay, state, lastFailed, accepted, log, strays)
    }

    constructor ()
      ensures Now() == NEW_LANE
    {
      queue := [];
      current := None;
      retryArmed := false;
      deadlineArmed := false;
      retryDelay := INITIAL_RETRY_MS;
      state := Idle;
      lastFailed := None;
      accepted := 0;
      log := [];
      strays := 0;
    }

    method Send(kind: Method, target: string, refused: bool)
      modifies this
      ensures Now() == old(Now()).Send(kind, target, refused)
    {
      if current.None? && |queue| == 0 {
        var p := Pending(accepted, kind, target);
        log := log + [Accepted(accepted)];
        accepted := accepted + 1;
        Begin(p, refused);
        return;
      }
      if kind == Assignments {
        if |queue| >= MAX_QUEUED_OPERATIONS {
          return;
        }
      } else if |queue| >= MAX_QUEUED_OPERATIONS {
        state := Failed;
        return;
      }
      queue := queue + [Pending(accepted, kind, target)];
      log := log + [Accepted(accepted)];
      accepted := accepted + 1;
    }

    method Begin(p: Pending, refused: bool)
      modifies this
      ensures Now() == old(Now()).Begin(p, refused)
      decreases 1
    {
      current := Some(p);
      log := log + [Began(p.ticket)];
      match p.kind {
        case ListOutputs => state := ListingOutputs;
        case Apply => state := Applying;
        case Restore => state := Restoring;
        case Assignments =>
      }
      deadlineArmed := true;
      if refused {
        FailCurrent(true, false);
      }
    }

    method Receive(a: Arrival, refreshRefused: bool, nextRefused: bool)
      modifies this
      ensures Now() == old(Now()).Receive(a, refreshRefused, nextRefused)
    {
      match a {
        case Incomplete =>
        case Unusable =>
          FailCurrent(true, false);
        case Answer(ok) =>
          retryDelay := INITIAL_RETRY_MS;
          Finish(ok, refreshRefused, nextRefused);
      }
    }

    method Finish(ok: bool, refreshRefused: bool, nextRefused: bool)
      modifies this
      ensures Now() == old(Now()).Finish(ok, refreshRefused, nextRefused)
    {
      hide Lane.Drain, Lane.Send, StateAfter;
      deadlineArmed := false;
      var finished := current;
      current := None;
      if finished.Some? {
        log := log + [Settled(finished.value.ticket, Replied(ok))];
      }
      if !ok {
        if finished.None? || finished.value.kind != Assignments {
          lastFailed := if finished.None? then None else Some((finished.value.kind, finished.value.target));
          state := Failed;
        }
      } else if finished.Some? {
        state := StateAfter(finished.value.kind, state);
      }
      if ok && finished.Some? && (finished.value.kind == Apply || finished.value.kind == Restore) {
        Send(Assignments, "", refreshRefused);
      }
      DrainQueue(nextRefused);
    }

    method FailCurrent(requeue: bool, nextRefused: bool)
      modifies this
      ensures Now() == if requeue then old(Now()).FailAndRequeue() else old(Now()).FailAndAbandon(nextRefused)
      decreases if requeue then 0 else 3
    {
      hide Lane.Drain, Lane.Begin, Lane.Requeue;
      deadlineArmed := false;
      if current.None? {
        RetryLater();
        return;
      }
      var abandoned := current.value;
      var backgroundMirror := abandoned.kind == Assignments;
      if requeue {
        PutBack();
      } else {
        log := log + [Settled(abandoned.ticket, Abandoned)];
        current := None;
      }
      if backgroundMirror {
        if requeue {
          RetryLater();
        } else {
          DrainQueue(nextRefused);
        }
        return;
      }
      if !requeue {
        lastFailed := Some((abandoned.kind, abandoned.target));
      }
      state := Failed;
      if requeue {
        RetryLater();
      } else {
        DrainQueue(nextRefused);
      }
    }

    /** The operation in flight goes back to the front; a full queue loses its last one. */
    method PutBack()
      requires current.Some?
      modifies this`queue, this`current, this`log
      ensures Now() == old(Now()).Requeue()
    {
      if |queue| >= MAX_QUEUED_OPERATIONS {
        log := log + [Settled(queue[|queue| - 1].ticket, Evicted)];
        queue := queue[..|queue| - 1];
      }
      queue := [current.value] + queue;
      current := None;
    }

    method DrainQueue(refused: bool)
      modifies this
      ensures Now() == old(Now()).Drain(refused)
      decreases 2
    {
      if |queue| == 0 {
        return;
      }
      var next := queue[0];
      queue := queue[1..];
      Begin(next, refused);
    }

    method RetryLater()
      modifies this`retryArmed, this`retryDelay
      ensures Now() == old(Now()).RetryLater()
    {
      if retryArmed {
        return;
      }
      retryArmed := true;
      retryDelay := if retryDelay * 2 <= MAXIMUM_RETRY_MS then retryDelay * 2 else MAXIMUM_RETRY_MS;
    }

    /** The socket connected: the request in flight goes out. */
    method WriteRequest()
      modifies this`log, this`strays
      ensures Now() == old(Now()).Write()
    {
      if current.Some? {
        log := log + [Wrote(current.value.ticket)];
      } else {
        strays := strays + 1;
      }
    }

    /** The request timer runs out, if it is running. */
    method DeadlineFires(refused: bool)
      modifies this
      ensures Now() == old(Now()).DeadlineFires(refused)
    {
      if !deadlineArmed {
        return;
      }
      deadlineArmed := false;
      if current.None? {
        return;
      }
      FailCurrent(false, refused);
    }

    /** The retry timer runs out, if it is running. */
    method RetryFires(refused: bool)
      modifies this
      ensures Now() == old(Now()).RetryFires(refused)
    {
      if !retryArmed {
        return;
      }
      retryArmed := false;
      if current.Some? {
        return;
      }
      if |queue| > 0 {
        var next := queue[0];
        queue := queue[1..];
        Begin(next, refused);
      }
    }

    method ResetStatus()
      modifies this`state
      ensures Now() == old(Now()).Reset()
    {
      if current.None? && |queue| == 0 {
        state := Idle;
      }
    }

    method Retry(refused: bool)
      modifies this
      ensures Now() == old(Now()).TryAgain(refused)
    {
      if lastFailed.Some? && lastFailed.value.0 != Assignments {
        Send(lastFailed.value.0, lastFailed.value.1, refused);
      }
    }
  }
}

/** What holds over every sequence of API calls, socket events and timer firings. */
module ApplyLaneRuns {
  import opened Common
  import opened ApplyLane

  datatype Event =
    | CallSend(kind: Method, target: string, refused: bool)
    | CallInvalid
    | CallReset
    | CallRetry(refused: bool)
    | Connected
    | SocketError
    | Arrives(a: Arrival, refreshRefused: bool, nextRefused: bool)
    | DeadlineRunsOut(refused: bool)
    | RetryRunsOut(refused: bool)

  function Happen(l: Lane, e: Event): Lane {
    match e
    case CallSend(kind, target, refused) => l.Send(kind, target, refused)
    case CallInvalid => l.(state := Failed)
    case CallReset => l.Reset()
    case CallRetry(refused) => l.TryAgain(refused)
    case Connected => l.Write()
    case SocketError => l.FailAndRequeue()
    case Arrives(a, refreshRefused, nextRefused) => l.Receive(a, refreshRefused, nextRefused)
    case DeadlineRunsOut(refused) => l.DeadlineFires(refused)
    case RetryRunsOut(refused) => l.RetryFires(refused)
  }

  function After(events: seq<Event>): Lane {
    if events == [] then NEW_LANE else Happen(After(events[..|events| - 1]), events[|events| - 1])
  }

  /** The operations the lane holds: the one in flight, then the queue. */
  function Held(l: Lane): seq<Pending> {
    if l.current.Some? then [l.current.value] + l.queue else l.queue
  }

  // ---- The log ----

  /** Tickets settled by a reply or a missed deadline, in log order. */
  function Served(log: seq<Mark>): seq<nat> {
    if log == [] then []
    else
      var last := log[|log| - 1];
      Served(log[..|log| - 1]) + if last.Settled? && last.how != Evicted then [last.ticket] else []
  }

  ghost predicate IsSettled(log: seq<Mark>, t: nat) {
    exists i :: SettledAt(log, i, t)
  }

  predicate SettledAt(log: seq<Mark>, i: int, t: nat) {
    0 <= i < |log| && log[i].Settled? && log[i].ticket == t
  }

  /** After a ticket is settled the log never mentions it again. */
  ghost predicate SettledIsFinal(log: seq<Mark>) {
    forall i, j, t :: SettledAt(log, i, t) && i < j < |log| ==> log[j].ticket != t
  }

  ghost predicate Increasing(s: seq<nat>) {
    forall i, j :: 0 <= i < j < |s| ==> s[i] < s[j]
  }

  ghost predicate Sorted(held: seq<Pending>) {
    forall i, j :: 0 <= i < j < |held| ==> held[i].ticket < held[j].ticket
  }

  /** The log agrees with a lane that holds `held`, having accepted `accepted` operations. */
  ghost predicate Accounts(held: seq<Pending>, accepted: nat, log: seq<Mark>) {
    && Sorted(held)
    && (forall p :: p in held ==> p.ticket < accepted)
    && (forall m :: m in log ==> m.ticket < accepted)
    && (forall t: nat :: t < accepted ==> (IsSettled(log, t) <==> forall p :: p in held ==> p.ticket != t))
    && SettledIsFinal(log)
    && Increasing(Served(log))
    && (forall p, t :: p in held && t in Served(log) ==> t < p.ticket)
  }

  ghost predicate Sound(l: Lane) {
    && |l.queue| <= MAX_QUEUED_OPERATIONS
    && (l.queue != [] ==> l.current.Some? || l.retryArmed)
    && (l.deadlineArmed <==> l.current.Some?)
    && l.retryDelay in {5000, 10000, 20000, 30000}
    && Accounts(Held(l), l.accepted, l.log)
  }

  // ---- How marks change the account ----

  lemma {:induction false} ServedAppend(log: seq<Mark>, m: Mark)
    ensures Served(log + [m]) == Served(log) + if m.Settled? && m.how != Evicted then [m.ticket] else []
  {
  }

  lemma {:induction false} SettledAppend(log: seq<Mark>, m: Mark, t: nat)
    ensures IsSettled(log + [m], t) <==> IsSettled(log, t) || (m.Settled? && m.ticket == t)
  {
    if IsSettled(log, t) {
      var i :| SettledAt(log, i, t);
      assert SettledAt(log + [m], i, t);
    }
    if IsSettled(log + [m], t) {
      var i :| SettledAt(log + [m], i, t);
      assert i < |log| ==> SettledAt(log, i, t);
    }
    if m.Settled? && m.ticket == t {
      assert SettledAt(log + [m], |log|, t);
    }
  }

  lemma {:induction false} FinalAppend(log: seq<Mark>, m: Mark)
    requires SettledIsFinal(log) && !IsSettled(log, m.ticket)
    ensures SettledIsFinal(log + [m])
  {
    forall i, j, t | SettledAt(log + [m], i, t) && i < j < |log + [m]|
      ensures (log + [m])[j].ticket != t
    {
      assert SettledAt(log, i, t);
    }
  }

  /** Beginning or writing a held operation. */
  lemma {:induction false} AccountTouch(held: seq<Pending>, accepted: nat, log: seq<Mark>, m: Mark)
    requires Accounts(held, accepted, log)
    requires (m.Began? || m.Wrote?) && exists p :: p in held && p.ticket == m.ticket
    ensures Accounts(held, accepted, log + [m])
  {
    FinalAppend(log, m);
    ServedAppend(log, m);
    forall t: nat
      ensures IsSettled(log + [m], t) <==> IsSettled(log, t)
    {
      SettledAppend(log, m, t);
    }
  }

  lemma {:induction false} AccountAccept(held: seq<Pending>, accepted: nat, log: seq<Mark>, p: Pending)
    requires Accounts(held, accepted, log) && p.ticket == accepted
    ensures Accounts(held + [p], accepted + 1, log + [Accepted(accepted)])
  {
    var m := Accepted(accepted);
    assert forall i :: 0 <= i < |log| ==> log[i] in log;
    FinalAppend(log, m);
    ServedAppend(log, m);
    assert forall t :: t in Served(log) ==> t < accepted by { ServedAreMarks(log); }
    forall t: nat
      ensures IsSettled(log + [m], t) <==> IsSettled(log, t)
    {
      SettledAppend(log, m, t);
    }
  }

  lemma {:induction false} ServedAreMarks(log: seq<Mark>)
    ensures forall t :: t in Served(log) ==> exists m :: m in log && m.ticket == t
  {
    if log != [] {
      ServedAreMarks(log[..|log| - 1]);
      assert log == log[..|log| - 1] + [log[|log| - 1]];
    }
  }

  /** Serving the first held operation. */
  lemma {:induction false} AccountServe(held: seq<Pending>, accepted: nat, log: seq<Mark>, how: Ending)
    requires held != [] && Accounts(held, accepted, log) && how != Evicted
    ensures Accounts(held[1..], accepted, log + [Settled(held[0].ticket, how)])
  {
    hide Served, IsSettled;
    var m := Settled(held[0].ticket, how);
    assert held[0] in held;
    assert forall i :: 0 <= i < |Served(log)| ==> Served(log)[i] in Served(log);
    FinalAppend(log, m);
    ServedAppend(log, m);
    assert held == [held[0]] + held[1..];
    forall t: nat | t < accepted
      ensures IsSettled(log + [m], t) <==> forall p :: p in held[1..] ==> p.ticket != t
    {
      SettledAppend(log, m, t);
    }
  }

  /** Evicting the last held operation. */
  lemma {:induction false} AccountEvict(held: seq<Pending>, accepted: nat, log: seq<Mark>)
    requires held != [] && Accounts(held, accepted, log)
    ensures Accounts(held[..|held| - 1], accepted, log + [Settled(held[|held| - 1].ticket, Evicted)])
  {
    var last := |held| - 1;
    var m := Settled(held[last].ticket, Evicted);
    assert held[last] in held;
    FinalAppend(log, m);
    ServedAppend(log, m);
    assert held == held[..last] + [held[last]];
    forall t: nat | t < accepted
      ensures IsSettled(log + [m], t) <==> forall p :: p in held[..last] ==> p.ticket != t
    {
      SettledAppend(log, m, t);
    }
  }

  // ---- Every event keeps the lane sound ----

  /** Between operations: nothing in flight, and the queue may have lost its timer. */
  ghost predicate Paused(l: Lane) {
    && l.current.None? && !l.deadlineArmed
    && |l.queue| <= MAX_QUEUED_OPERATIONS
    && l.retryDelay in {5000, 10000, 20000, 30000}
    && Accounts(l.queue, l.accepted, l.log)
  }

  /** A full queue loses its last operation, which is the last one held. */
  lemma {:induction false} EvictAccounts(l: Lane)
    requires l.current.Some? && l.queue != [] && Accounts(Held(l), l.accepted, l.log)
    ensures var last := |l.queue| - 1;
            Accounts([l.current.value] + l.queue[..last], l.accepted, l.log + [Settled(l.queue[last].ticket, Evicted)])
  {
    hide Accounts;
    var last := |l.queue| - 1;
    AccountEvict(Held(l), l.accepted, l.log);
    assert Held(l)[..|Held(l)| - 1] == [l.current.value] + l.queue[..last];
    assert Held(l)[|Held(l)| - 1] == l.queue[last];
  }

  lemma {:induction false} PutBackPaused(l: Lane)
    requires l.current.Some? && Sound(l)
    ensures var q := l.(deadlineArmed := false).Requeue();
            Paused(q) && q.retryArmed == l.retryArmed && q.queue != []
  {
    hide Accounts;
    if |l.queue| >= MAX_QUEUED_OPERATIONS {
      EvictAccounts(l);
    }
  }

  lemma {:induction false} RetryLaterSound(l: Lane)
    requires Paused(l)
    ensures Sound(l.RetryLater())
  {
    hide Accounts;
  }

  lemma {:induction false} RequeueSound(l: Lane)
    requires l.current.Some? && Sound(l)
    ensures Sound(l.FailAndRequeue())
  {
    hide Sound, Accounts, Lane.Requeue, Lane.RetryLater;
    PutBackPaused(l);
    var q := l.(deadlineArmed := false).Requeue();
    RetryLaterSound(q);
    RetryLaterSound(q.(state := Failed));
  }

  lemma {:induction false} BeginSound(l: Lane, p: Pending, refused: bool)
    requires l.current.None? && |l.queue| <= MAX_QUEUED_OPERATIONS
    requires l.retryDelay in {5000, 10000, 20000, 30000}
    requires Accounts([p] + l.queue, l.accepted, l.log)
    ensures Sound(l.Begin(p, refused))
  {
    assert p in [p] + l.queue;
    AccountTouch([p] + l.queue, l.accepted, l.log, Began(p.ticket));
    var begun := l.Begin(p, false);
    assert Sound(begun);
    if refused {
      RequeueSound(begun);
    }
  }

  lemma {:induction false} DrainSound(l: Lane, refused: bool)
    requires Paused(l)
    ensures Sound(l.Drain(refused))
  {
    if l.queue != [] {
      assert l.queue == [l.queue[0]] + l.queue[1..];
      BeginSound(l.(queue := l.queue[1..]), l.queue[0], refused);
    }
  }

  lemma {:induction false} SendSound(l: Lane, kind: Method, target: string, refused: bool)
    requires Sound(l)
    ensures Sound(l.Send(kind, target, refused))
  {
    var (accepting, p) := l.Accept(kind, target);
    AccountAccept(Held(l), l.accepted, l.log, p);
    if !l.Busy() {
      assert [] + [p] == [p] + l.queue;
      BeginSound(accepting, p, refused);
    } else if |l.queue| < MAX_QUEUED_OPERATIONS {
      var m := accepting.(queue := l.queue + [p]);
      assert Held(m) == Held(l) + [p];
    }
  }

  /** After a reply the refreshed assignments are accepted whether or not something is queued. */
  lemma {:induction false} SendPaused(l: Lane, refused: bool)
    requires Paused(l)
    ensures var m := l.Send(Assignments, "", refused);
            if m.current.Some? then Sound(m) && m.queue == [] else Paused(m)
  {
    var (accepting, p) := l.Accept(Assignments, "");
    AccountAccept(l.queue, l.accepted, l.log, p);
    if l.queue == [] {
      assert [] + [p] == [p] + l.queue;
      BeginSound(accepting, p, refused);
    }
  }

  lemma {:induction false} FinishSound(l: Lane, ok: bool, refreshRefused: bool, nextRefused: bool)
    requires Sound(l)
    ensures Sound(l.Finish(ok, refreshRefused, nextRefused))
  {
    var cleared := l.(deadlineArmed := false, current := None);
    match l.current
    case None =>
      DrainSound(cleared, nextRefused);
      DrainSound(cleared.(state := Failed, lastFailed := None), nextRefused);
    case Some(p) =>
      AccountServe(Held(l), l.accepted, l.log, Replied(ok));
      assert Held(l)[1..] == l.queue;
      var settled := cleared.Note(Settled(p.ticket, Replied(ok)));
      assert Paused(settled);
      var told := if ok then settled.(state := StateAfter(p.kind, l.state))
                  else if p.kind == Assignments then settled
                  else settled.(state := Failed, lastFailed := Some((p.kind, p.target)));
      assert Paused(told);
      if ok && (p.kind == Apply || p.kind == Restore) {
        SendPaused(told, refreshRefused);
        var sent := told.Send(Assignments, "", refreshRefused);
        if sent.current.None? {
          DrainSound(sent, nextRefused);
        }
      } else {
        DrainSound(told, nextRefused);
      }
  }

  lemma {:induction false} AbandonSound(l: Lane, refused: bool)
    requires l.current.Some? && Sound(l)
    ensures Sound(l.FailAndAbandon(refused))
  {
    hide Accounts, Lane.Drain;
    var p := l.current.value;
    AccountServe(Held(l), l.accepted, l.log, Abandoned);
    assert Held(l)[1..] == l.queue;
    var given := l.Note(Settled(p.ticket, Abandoned)).(deadlineArmed := false, current := None);
    DrainSound(given, refused);
    DrainSound(given.(state := Failed, lastFailed := Some((p.kind, p.target))), refused);
  }

  lemma {:induction false} HappenSound(l: Lane, e: Event)
    requires Sound(l)
    ensures Sound(Happen(l, e))
  {
    hide Accounts, Lane.Send, Lane.Drain;
    match e
    case CallSend(kind, target, refused) => SendSound(l, kind, target, refused);
    case CallInvalid =>
    case CallReset =>
    case CallRetry(refused) =>
      if l.lastFailed.Some? {
        SendSound(l, l.lastFailed.value.0, l.lastFailed.value.1, refused);
      }
    case Connected =>
      if l.current.Some? {
        assert l.current.value in Held(l);
        AccountTouch(Held(l), l.accepted, l.log, Wrote(l.current.value.ticket));
      }
    case SocketError =>
      if l.current.Some? {
        RequeueSound(l);
      }
    case Arrives(a, refreshRefused, nextRefused) =>
      match a {
        case Incomplete =>
        case Unusable =>
          if l.current.Some? {
            RequeueSound(l);
          }
        case Answer(ok) =>
          FinishSound(l.(retryDelay := INITIAL_RETRY_MS), ok, refreshRefused, nextRefused);
      }
    case DeadlineRunsOut(refused) =>
      if l.deadlineArmed {
        AbandonSound(l, refused);
        assert l.(deadlineArmed := false).FailAndAbandon(refused) == l.FailAndAbandon(refused);
      }
    case RetryRunsOut(refused) =>
      if l.retryArmed && l.current.None? {
        DrainSound(l.(retryArmed := false), refused);
      }
  }

  /** The lane is sound after any events whatever. */
  lemma {:induction false} AlwaysSound(events: seq<Event>)
    ensures Sound(After(events))
  {
    if events != [] {
      AlwaysSound(events[..|events| - 1]);
      HappenSound(After(events[..|events| - 1]), events[|events| - 1]);
    }
  }

  /** Events only add to the log. */
  lemma {:induction false} LogGrows(l: Lane, e: Event)
    ensures l.log <= Happen(l, e).log
  {
  }

  /**
   * Once an operation is settled, by a reply, by a missed deadline or by eviction, it is never begun,
   * written or settled again, whatever happens later.
   */
  lemma {:induction false} SettledNeverResent(events: seq<Event>, more: seq<Event>, i: nat)
    requires i < |After(events).log| && After(events).log[i].Settled?
    ensures var log := After(events + more).log;
            && After(events).log <= log
            && forall j :: i < j < |log| ==> log[j].ticket != log[i].ticket
  {
    hide Happen;
    var all := events + more;
    if more == [] {
      assert all == events;
    } else {
      SettledNeverResent(events, more[..|more| - 1], i);
      assert all[..|all| - 1] == events + more[..|more| - 1];
      LogGrows(After(all[..|all| - 1]), all[|all| - 1]);
    }
    FinalAt(events + more, i);
  }

  lemma {:induction false} FinalAt(events: seq<Event>, i: nat)
    requires i < |After(events).log| && After(events).log[i].Settled?
    ensures var log := After(events).log;
            forall j :: i < j < |log| ==> log[j].ticket != log[i].ticket
  {
    hide After;
    AlwaysSound(events);
    assert SettledAt(After(events).log, i, After(events).log[i].ticket);
  }

  /**
   * Every accepted operation is held or settled, never both; replies and missed deadlines come in order
   * of acceptance.
   */
  lemma {:induction false} EveryTicketAccounted(events: seq<Event>, t: nat)
    requires t < After(events).accepted
    ensures var l := After(events);
            && (IsSettled(l.log, t) <==> forall p :: p in Held(l) ==> p.ticket != t)
            && Increasing(Served(l.log))
  {
    AlwaysSound(events);
  }

  /** The lane never stalls: with work queued and nothing in flight, the retry timer runs and starts the first. */
  lemma {:induction false} NeverStalls(events: seq<Event>)
    requires After(events).queue != [] && After(events).current.None?
    ensures var l := After(events);
            l.retryArmed && l.RetryFires(false).current == Some(l.queue[0])
  {
    AlwaysSound(events);
  }

  // ---- Progress ----

  /** One answer from the daemon, after the retry timer when nothing is in flight; connections are accepted. */
  function Attempt(l: Lane, ok: bool): Lane {
    var trying := if l.current.None? then Happen(l, RetryRunsOut(false)) else l;
    Happen(trying, Arrives(Answer(ok), false, false))
  }

  function Attempts(l: Lane, answers: seq<bool>): Lane
    decreases answers
  {
    if answers == [] then l else Attempts(Attempt(l, answers[0]), answers[1..])
  }

  lemma {:induction false} TryingHolds(l: Lane)
    requires Sound(l) && l.current.None? && l.queue != []
    ensures var m := Happen(l, RetryRunsOut(false));
            Sound(m) && m.current.Some? && Held(m) == Held(l) && l.log <= m.log
  {
    hide Accounts;
    HappenSound(l, RetryRunsOut(false));
    assert l.queue == [l.queue[0]] + l.queue[1..];
  }

  /** Draining with the connection accepted neither loses nor reorders what is queued. */
  lemma {:induction false} DrainHolds(l: Lane)
    requires l.current.None?
    ensures Held(l.Drain(false)) == l.queue && l.log <= l.Drain(false).log
  {
    if l.queue != [] {
      assert l.queue == [l.queue[0]] + l.queue[1..];
    }
  }

  /** The refresh that follows a change is begun, queued last, or left out. */
  lemma {:induction false} RefreshHolds(l: Lane)
    requires l.current.None?
    ensures var m := l.Send(Assignments, "", false);
            l.queue <= Held(m) && l.log <= m.log && (m.current.Some? ==> l.queue == [] == m.queue)
  {
  }

  lemma {:induction false} AnswerServes(l: Lane, ok: bool)
    requires Sound(l) && l.current.Some?
    ensures var m := Happen(l, Arrives(Answer(ok), false, false));
            && Sound(m)
            && l.log + [Settled(l.current.value.ticket, Replied(ok))] <= m.log
            && l.queue <= Held(m)
  {
    hide Accounts, Lane.Drain, Lane.Send, StateAfter;
    HappenSound(l, Arrives(Answer(ok), false, false));
    var p := l.current.value;
    var cleared := l.(retryDelay := INITIAL_RETRY_MS, deadlineArmed := false, current := None);
    var settled := cleared.Note(Settled(p.ticket, Replied(ok)));
    var told := if ok then settled.(state := StateAfter(p.kind, l.state))
                else if p.kind == Assignments then settled
                else settled.(state := Failed, lastFailed := Some((p.kind, p.target)));
    var sent := if ok && (p.kind == Apply || p.kind == Restore) then told.Send(Assignments, "", false) else told;
    assert Happen(l, Arrives(Answer(ok), false, false)) == sent.Drain(false);
    RefreshHolds(told);
    if sent.current.None? {
      DrainHolds(sent);
    } else {
      NothingToDrain(sent, false);
    }
  }

  lemma {:induction false} NothingToDrain(l: Lane, refused: bool)
    requires l.queue == []
    ensures l.Drain(refused) == l
  {
  }

  /** An answered attempt settles the first operation held and keeps the others in order. */
  lemma {:induction false} AttemptServes(l: Lane, ok: bool)
    requires Sound(l) && Held(l) != []
    ensures var m := Attempt(l, ok);
            && Sound(m)
            && l.log <= m.log && Settled(Held(l)[0].ticket, Replied(ok)) in m.log
            && Held(l)[1..] <= Held(m)
  {
    hide Happen, Accounts;
    var trying := if l.current.None? then Happen(l, RetryRunsOut(false)) else l;
    if l.current.None? {
      TryingHolds(l);
    }
    AnswerServes(trying, ok);
    var mark := Settled(trying.current.value.ticket, Replied(ok));
    assert mark in trying.log + [mark];
  }

  lemma {:induction false} AttemptsGrow(l: Lane, answers: seq<bool>)
    ensures l.log <= Attempts(l, answers).log
    decreases answers
  {
    hide Happen;
    if answers != [] {
      var trying := if l.current.None? then Happen(l, RetryRunsOut(false)) else l;
      LogGrows(l, RetryRunsOut(false));
      LogGrows(trying, Arrives(Answer(answers[0]), false, false));
      AttemptsGrow(Attempt(l, answers[0]), answers[1..]);
    }
  }

  lemma {:induction false} AttemptsServe(l: Lane, answers: seq<bool>, i: nat)
    requires Sound(l) && i < |Held(l)| && i < |answers|
    ensures Settled(Held(l)[i].ticket, Replied(answers[i])) in Attempts(l, answers).log
    decreases i
  {
    hide Attempt, Sound;
    AttemptServes(l, answers[0]);
    var m := Attempt(l, answers[0]);
    if i == 0 {
      AttemptsGrow(m, answers[1..]);
    } else {
      assert Held(m)[i - 1] == Held(l)[1..][i - 1];
      AttemptsServe(m, answers[1..], i - 1);
    }
  }

  /**
   * From any reachable lane, once connections are accepted and attempts are answered, every operation held
   * is settled by the answer of its place in line: at most 65 answers settle everything held.
   */
  lemma {:induction false} EveryHeldIsAnswered(events: seq<Event>, answers: seq<bool>, i: nat)
    requires i < |Held(After(events))| && i < |answers|
    ensures |Held(After(events))| <= MAX_QUEUED_OPERATIONS + 1
    ensures Settled(Held(After(events))[i].ticket, Replied(answers[i])) in Attempts(After(events), answers).log
  {
    AlwaysSound(events);
    AttemptsServe(After(events), answers, i);
  }

  // ---- What each event does, seen as one queue ----

  /** The settling marks, in log order. */
  function Settlements(log: seq<Mark>): seq<Mark> {
    if log == [] then []
    else
      var before, last := Settlements(log[..|log| - 1]), log[|log| - 1];
      if last.Settled? then before + [last] else before
  }

  lemma {:induction false} SettlementsAppend(log: seq<Mark>, m: Mark)
    ensures Settlements(log + [m]) == Settlements(log) + if m.Settled? then [m] else []
  {
    assert (log + [m])[..|log|] == log;
  }

  /** The lane has room for one more operation. */
  predicate Room(l: Lane) {
    Held(l) == [] || |l.queue| < 64
  }

  /** From `l` to `m` the held operations and the settling marks change like this, and nothing is accepted. */
  ghost predicate Becomes(l: Lane, m: Lane, held: seq<Pending>, settled: seq<Mark>) {
    Held(m) == held && Settlements(m.log) == Settlements(l.log) + settled && m.accepted == l.accepted
  }

  /** One more operation is accepted and held last. */
  ghost predicate Takes(l: Lane, m: Lane, kind: Method, target: string) {
    && Held(m) == Held(l) + [Pending(l.accepted, kind, target)]
    && Settlements(m.log) == Settlements(l.log)
    && m.accepted == l.accepted + 1
  }

  lemma {:induction false} RequeueHolds(l: Lane)
    requires l.current.Some?
    ensures var m := l.FailAndRequeue();
            && Held(m) == (if |l.queue| >= 64 then [l.current.value] + l.queue[..|l.queue| - 1] else Held(l))
            && m.log == (if |l.queue| >= 64 then l.log + [Settled(l.queue[|l.queue| - 1].ticket, Evicted)] else l.log)
            && m.accepted == l.accepted
  {
  }

  lemma {:induction false} RequeueBecomes(l: Lane)
    requires l.current.Some?
    ensures var full := |l.queue| >= 64;
            Becomes(l, l.FailAndRequeue(), if full then Held(l)[..|Held(l)| - 1] else Held(l),
                    if full then [Settled(Held(l)[|Held(l)| - 1].ticket, Evicted)] else [])
  {
    hide Settlements, Lane.FailAndRequeue;
    RequeueHolds(l);
    if |l.queue| >= 64 {
      SettlementsAppend(l.log, Settled(l.queue[|l.queue| - 1].ticket, Evicted));
      assert Held(l)[..|Held(l)| - 1] == [l.current.value] + l.queue[..|l.queue| - 1];
    } else {
      assert Settlements(l.log) + [] == Settlements(l.log);
    }
  }

  lemma {:induction false} BeginBecomes(l: Lane, p: Pending, refused: bool)
    requires l.current.None? && |l.queue| < 64
    ensures Becomes(l, l.Begin(p, refused), [p] + l.queue, [])
    ensures !refused ==> l.Begin(p, refused).current == Some(p)
  {
    hide Lane.FailAndRequeue;
    SettlementsAppend(l.log, Began(p.ticket));
    assert Settlements(l.log) + [] == Settlements(l.log);
    RequeueBecomes(l.Begin(p, false));
  }

  lemma {:induction false} DrainBecomes(l: Lane, refused: bool)
    requires l.current.None? && |l.queue| <= 64
    ensures Becomes(l, l.Drain(refused), l.queue, [])
  {
    hide Lane.Begin;
    if l.queue == [] {
      assert Settlements(l.log) + [] == Settlements(l.log);
    } else {
      assert l.queue == [l.queue[0]] + l.queue[1..];
      BeginBecomes(l.(queue := l.queue[1..]), l.queue[0], refused);
    }
  }

  lemma {:induction false} SendBecomes(l: Lane, kind: Method, target: string, refused: bool)
    requires |l.queue| <= 64
    ensures var m := l.Send(kind, target, refused);
            if Room(l) then Takes(l, m, kind, target)
            else m == if kind == Assignments then l else l.(state := Failed)
  {
    hide Lane.Begin, Settlements;
    SettlementsAppend(l.log, Accepted(l.accepted));
    assert Settlements(l.log) + [] == Settlements(l.log);
    if Held(l) == [] {
      var (accepting, p) := l.Accept(kind, target);
      BeginBecomes(accepting, p, refused);
      assert [p] + l.queue == Held(l) + [p];
    } else if |l.queue| < 64 {
      assert Held(l.Send(kind, target, refused)) == Held(l) + [Pending(l.accepted, kind, target)];
    }
  }

  /**
   * The lane is one queue. A call adds an operation at the end when there is room and nothing otherwise; an
   * answer and a missed deadline take the first one off and settle it accordingly, an answered change adding
   * a refresh when there is room; a lost connection keeps them all, but for the last one of a full queue,
   * which is evicted; and nothing else changes what is held or settled.
   */
  lemma {:induction false} HeldExact(l: Lane, e: Event)
    requires Sound(l)
    ensures var m, held := Happen(l, e), Held(l);
            match e
            case CallSend(kind, target, _) =>
              if Room(l) then Takes(l, m, kind, target) else m == if kind == Assignments then l else l.(state := Failed)
            case CallRetry(_) =>
              if l.lastFailed.None? || l.lastFailed.value.0 == Assignments then m == l
              else if Room(l) then Takes(l, m, l.lastFailed.value.0, l.lastFailed.value.1)
              else m == l.(state := Failed)
            case SocketError => KeepsHeld(l, m)
            case DeadlineRunsOut(_) =>
              if l.current.None? then m == l
              else Becomes(l, m, held[1..], [Settled(held[0].ticket, Abandoned)])
            case Arrives(Incomplete, _, _) => m == l
            case Arrives(Unusable, _, _) => KeepsHeld(l, m)
            case Arrives(Answer(ok), _, _) =>
              if l.current.None? then Becomes(l, m, held, [])
              else AnswerTakesFirst(l, m, ok)
            case _ => Becomes(l, m, held, [])
  {
    hide Accounts, Lane.Send, Lane.Drain, Lane.FailAndRequeue, Settlements;
    assert Settlements(l.log) + [] == Settlements(l.log);
    match e
    case CallSend(kind, target, refused) => SendBecomes(l, kind, target, refused);
    case CallRetry(refused) =>
      if l.lastFailed.Some? {
        SendBecomes(l, l.lastFailed.value.0, l.lastFailed.value.1, refused);
      }
    case SocketError => LostBecomes(l);
    case DeadlineRunsOut(refused) =>
      if l.current.Some? {
        AbandonBecomes(l, refused);
      }
    case Arrives(a, refreshRefused, nextRefused) =>
      if a.Unusable? {
        LostBecomes(l);
      } else if a.Answer? {
        AnswerBecomes(l, a.ok, refreshRefused, nextRefused);
      }
    case RetryRunsOut(refused) =>
      if l.current.None? {
        DrainBecomes(l.(retryArmed := false), refused);
      }
    case Connected =>
      if l.current.Some? {
        SettlementsAppend(l.log, Wrote(l.current.value.ticket));
      }
    case CallInvalid =>
    case CallReset =>
  }

  ghost predicate KeepsHeld(l: Lane, m: Lane) {
    var full := l.current.Some? && |l.queue| >= 64;
    Becomes(l, m, if full then Held(l)[..|Held(l)| - 1] else Held(l),
            if full then [Settled(Held(l)[|Held(l)| - 1].ticket, Evicted)] else [])
  }

  ghost predicate AnswerTakesFirst(l: Lane, m: Lane, ok: bool)
    requires l.current.Some?
  {
    var p := l.current.value;
    var refresh := ok && (p.kind == Apply || p.kind == Restore) && |l.queue| < 64;
    && Held(m) == l.queue + (if refresh then [Pending(l.accepted, Assignments, "")] else [])
    && Settlements(m.log) == Settlements(l.log) + [Settled(p.ticket, Replied(ok))]
    && m.accepted == l.accepted + if refresh then 1 else 0
  }

  lemma {:induction false} LostBecomes(l: Lane)
    ensures KeepsHeld(l, l.FailAndRequeue())
  {
    if l.current.Some? {
      RequeueBecomes(l);
    } else {
      assert Settlements(l.log) + [] == Settlements(l.log);
    }
  }

  lemma {:induction false} AbandonBecomes(l: Lane, refused: bool)
    requires Sound(l) && l.current.Some?
    ensures Becomes(l, Happen(l, DeadlineRunsOut(refused)), l.queue, [Settled(l.current.value.ticket, Abandoned)])
  {
    hide Accounts, Settlements, Lane.Drain;
    var p := l.current.value;
    SettlementsAppend(l.log, Settled(p.ticket, Abandoned));
    var given := l.Note(Settled(p.ticket, Abandoned)).(deadlineArmed := false, current := None);
    DrainBecomes(given, refused);
    DrainBecomes(given.(state := Failed, lastFailed := Some((p.kind, p.target))), refused);
    assert (Settlements(l.log) + [Settled(p.ticket, Abandoned)]) + []
        == Settlements(l.log) + [Settled(p.ticket, Abandoned)];
  }

  lemma {:induction false} AnswerBecomes(l: Lane, ok: bool, refreshRefused: bool, nextRefused: bool)
    requires Sound(l)
    ensures var m := Happen(l, Arrives(Answer(ok), refreshRefused, nextRefused));
            if l.current.None? then Becomes(l, m, l.queue, []) else AnswerTakesFirst(l, m, ok)
  {
    hide Accounts, Settlements, Lane.Drain, Lane.Send, StateAfter;
    var cleared := l.(retryDelay := INITIAL_RETRY_MS, deadlineArmed := false, current := None);
    match l.current
    case None =>
      DrainBecomes(cleared, nextRefused);
      DrainBecomes(cleared.(state := Failed, lastFailed := None), nextRefused);
    case Some(p) =>
      var mark := Settled(p.ticket, Replied(ok));
      SettlementsAppend(l.log, mark);
      var settled := cleared.Note(mark);
      var told := if ok then settled.(state := StateAfter(p.kind, l.state))
                  else if p.kind == Assignments then settled
                  else settled.(state := Failed, lastFailed := Some((p.kind, p.target)));
      var changes := ok && (p.kind == Apply || p.kind == Restore);
      var sent := if changes then told.Send(Assignments, "", refreshRefused) else told;
      assert Happen(l, Arrives(Answer(ok), refreshRefused, nextRefused)) == sent.Drain(nextRefused);
      assert l.queue + [] == l.queue;
      if changes {
        SendBecomes(told, Assignments, "", refreshRefused);
        RefreshPlaced(told, refreshRefused);
      }
      if sent.current.None? {
        DrainBecomes(sent, nextRefused);
        assert Settlements(sent.log) + [] == Settlements(sent.log);
      } else {
        NothingToDrain(sent, nextRefused);
      }
  }

  /** A refresh goes straight into flight only when nothing was queued. */
  lemma {:induction false} RefreshPlaced(l: Lane, refused: bool)
    requires l.current.None? && |l.queue| <= 64
    ensures var m := l.Send(Assignments, "", refused);
            |m.queue| <= 64 && (m.current.Some? ==> m.queue == [])
  {
  }

  // ---- Missed deadlines ----

  /** A missed deadline settles the operation in flight as abandoned. */
  lemma {:induction false} DeadlineSettles(l: Lane, refused: bool)
    requires Sound(l) && l.current.Some?
    ensures l.log + [Settled(l.current.value.ticket, Abandoned)] <= Happen(l, DeadlineRunsOut(refused)).log
  {
    hide Accounts, Lane.Drain;
  }

  /** An operation whose deadline was missed is never begun, written or settled again, whatever happens later. */
  lemma {:induction false} MissedNeverResent(events: seq<Event>, refused: bool, more: seq<Event>)
    requires After(events).current.Some?
    ensures var before, t := After(events).log, After(events).current.value.ticket;
            var log := After((events + [DeadlineRunsOut(refused)]) + more).log;
            && before + [Settled(t, Abandoned)] <= log
            && forall j :: |before| < j < |log| ==> log[j].ticket != t
  {
    hide Happen, After, Sound;
    AlwaysSound(events);
    var missed := events + [DeadlineRunsOut(refused)];
    AfterOne(events, DeadlineRunsOut(refused));
    DeadlineSettles(After(events), refused);
    SettledNeverResent(missed, more, |After(events).log|);
  }

  lemma {:induction false} AfterOne(events: seq<Event>, e: Event)
    ensures After(events + [e]) == Happen(After(events), e)
  {
    assert (events + [e])[..|events|] == events;
  }

  // ---- The log tells everything ----

  /** An operation that went into flight is marked as begun. */
  ghost predicate Marked(l: Lane, m: Lane) {
    m.current.Some? && m.current != l.current ==>
      exists i :: |l.log| <= i < |m.log| && m.log[i] == Began(m.current.value.ticket)
  }

  lemma {:induction false} BeginMarks(l: Lane, p: Pending, refused: bool)
    ensures var m := l.Begin(p, refused);
            m.current.Some? ==> l.log + [Began(p.ticket)] <= m.log && m.current == Some(p)
  {
  }

  lemma {:induction false} DrainMarks(l: Lane, refused: bool)
    ensures var m := l.Drain(refused);
            && l.log <= m.log
            && (m.current.Some? && m.current != l.current ==> l.log + [Began(m.current.value.ticket)] <= m.log)
  {
    hide Lane.Begin;
    if l.queue != [] {
      BeginMarks(l.(queue := l.queue[1..]), l.queue[0], refused);
    }
  }

  lemma {:induction false} SendMarks(l: Lane, kind: Method, target: string, refused: bool)
    ensures var m := l.Send(kind, target, refused);
            && l.log <= m.log
            && (m.current.Some? && m.current != l.current ==>
                  l.log + [Accepted(l.accepted), Began(m.current.value.ticket)] <= m.log)
  {
    hide Lane.Begin;
    if !l.Busy() {
      var (accepting, p) := l.Accept(kind, target);
      BeginMarks(accepting, p, refused);
    }
  }

  lemma {:induction false} FinishMarks(l: Lane, ok: bool, refreshRefused: bool, nextRefused: bool)
    requires l.current.Some? ==> l.deadlineArmed
    ensures var m := l.Finish(ok, refreshRefused, nextRefused);
            m.current.Some? ==> exists i :: |l.log| <= i < |m.log| && m.log[i] == Began(m.current.value.ticket)
  {
    hide Lane.Drain, Lane.Send, StateAfter;
    var cleared := l.(deadlineArmed := false, current := None);
    match l.current
    case None =>
      var told := if ok then cleared else cleared.(state := Failed, lastFailed := None);
      DrainMarks(told, nextRefused);
      var m := told.Drain(nextRefused);
      assert m.current.Some? ==> m.log[|told.log|] == Began(m.current.value.ticket);
    case Some(p) =>
      var settled := cleared.Note(Settled(p.ticket, Replied(ok)));
      var told := if ok then settled.(state := StateAfter(p.kind, l.state))
                  else if p.kind == Assignments then settled
                  else settled.(state := Failed, lastFailed := Some((p.kind, p.target)));
      var sent :=
        if ok && (p.kind == Apply || p.kind == Restore) then told.Send(Assignments, "", refreshRefused) else told;
      assert l.Finish(ok, refreshRefused, nextRefused) == sent.Drain(nextRefused);
      SendMarks(told, Assignments, "", refreshRefused);
      DrainMarks(sent, nextRefused);
      var m := sent.Drain(nextRefused);
      if m.current.Some? {
        if m.current != sent.current {
          assert m.log[|sent.log|] == Began(m.current.value.ticket);
        } else {
          assert m.log[|told.log| + 1] == Began(m.current.value.ticket);
        }
      }
  }

  /** Whatever goes into flight, by any event, is marked as begun; what is sent on connecting, as written. */
  lemma {:induction false} FlightIsMarked(l: Lane, e: Event)
    requires Sound(l)
    ensures Marked(l, Happen(l, e))
    ensures l.current.Some? ==> Happen(l, Connected).log == l.log + [Wrote(l.current.value.ticket)]
  {
    hide Accounts, Lane.Drain, Lane.Send, Lane.Finish;
    var m := Happen(l, e);
    match e {
      case CallSend(kind, target, refused) => SendMarks(l, kind, target, refused);
      case CallRetry(refused) =>
        if l.lastFailed.Some? {
          SendMarks(l, l.lastFailed.value.0, l.lastFailed.value.1, refused);
        }
      case RetryRunsOut(refused) => DrainMarks(l.(retryArmed := false), refused);
      case DeadlineRunsOut(refused) =>
        if l.current.Some? {
          AbandonMarks(l, refused);
        }
      case Arrives(a, refreshRefused, nextRefused) =>
        if a.Answer? {
          FinishMarks(l.(retryDelay := INITIAL_RETRY_MS), a.ok, refreshRefused, nextRefused);
        }
      case _ =>
    }
    if m.current.Some? && m.current != l.current {
      if e.CallSend? || e.CallRetry? {
        assert m.log[|l.log| + 1] == Began(m.current.value.ticket);
      } else if e.RetryRunsOut? {
        assert m.log[|l.log|] == Began(m.current.value.ticket);
      }
    }
  }

  lemma {:induction false} AbandonMarks(l: Lane, refused: bool)
    requires Sound(l) && l.current.Some?
    ensures Marked(l, Happen(l, DeadlineRunsOut(refused)))
  {
    hide Accounts, Lane.Drain;
    var p := l.current.value;
    var given := l.Note(Settled(p.ticket, Abandoned)).(deadlineArmed := false, current := None);
    var told :=
      if p.kind == Assignments then given else given.(state := Failed, lastFailed := Some((p.kind, p.target)));
    DrainMarks(told, refused);
    var m := told.Drain(refused);
    assert m == Happen(l, DeadlineRunsOut(refused));
    if m.current.Some? {
      assert m.log[|told.log|] == Began(m.current.value.ticket);
    }
  }

  /** The events that touch nothing held: clearing the status only when idle, a refused call, a stray connection. */
  lemma {:induction false} QuietExact(l: Lane)
    ensures Happen(l, CallReset) == if Held(l) == [] then l.(state := Idle) else l
    ensures Happen(l, CallInvalid) == l.(state := Failed)
    ensures l.current.None? ==> Happen(l, Connected) == l.(strays := l.strays + 1)
  {
  }

  // ---- Delays and what is shown ----

  function Refusals(n: nat): seq<Event> {
    if n == 0 then [] else Refusals(n - 1) + [RetryRunsOut(true)]
  }

  function Doubled(delay: nat, n: nat): nat {
    if n == 0 then delay
    else if 2 * Doubled(delay, n - 1) <= 30000 then 2 * Doubled(delay, n - 1) else 30000
  }

  /** While connections are refused the retry delay doubles up to half a minute, and nothing held is lost. */
  lemma {:induction false} DelayDoubles(events: seq<Event>, n: nat)
    requires After(events).queue != [] && After(events).current.None?
    ensures var l, m := After(events), After(events + Refusals(n));
            m.retryDelay == Doubled(l.retryDelay, n) && m.queue == l.queue && m.current.None? && m.retryArmed
  {
    hide Happen, After, Accounts;
    AlwaysSound(events);
    if n == 0 {
      assert events + Refusals(0) == events;
    } else {
      var before := events + Refusals(n - 1);
      DelayDoubles(events, n - 1);
      assert events + Refusals(n) == before + [RetryRunsOut(true)];
      AfterOne(before, RetryRunsOut(true));
      AlwaysSound(before);
      RefusedRetry(After(before));
    }
  }

  lemma {:induction false} RefusedRetry(l: Lane)
    requires Sound(l) && l.queue != [] && l.current.None?
    ensures var m := Happen(l, RetryRunsOut(true));
            && m.retryDelay == (if 2 * l.retryDelay <= 30000 then 2 * l.retryDelay else 30000)
            && m.queue == l.queue && m.current.None? && m.retryArmed
  {
    hide Accounts;
    assert l.queue == [l.queue[0]] + l.queue[1..];
  }

  /** What is shown once the last operation held is answered, what a failure leaves for Try Again, and the delay. */
  lemma {:induction false} AnswerShows(l: Lane, ok: bool)
    requires l.current.Some? && l.queue == []
    ensures var p, m := l.current.value, Happen(l, Arrives(Answer(ok), false, false));
            && m.retryDelay == 5000
            && m.state == (match p.kind
                           case Assignments => l.state
                           case Apply => if ok then Applied else Failed
                           case _ => if ok then Idle else Failed)
            && m.lastFailed == if ok || p.kind == Assignments then l.lastFailed else Some((p.kind, p.target))
  {
  }

  /** What is shown when an operation goes into flight, and what a missed deadline leaves for Try Again. */
  lemma {:induction false} FlightShows(l: Lane, kind: Method, target: string)
    requires Held(l) == []
    ensures var m := Happen(l, CallSend(kind, target, false));
            var late := Happen(m, DeadlineRunsOut(false));
            && m.deadlineArmed
            && m.state == (match kind
                           case ListOutputs => ListingOutputs
                           case Apply => Applying
                           case Restore => Restoring
                           case Assignments => l.state)
            && late.state == (if kind == Assignments then l.state else Failed)
            && late.lastFailed == if kind == Assignments then l.lastFailed else Some((kind, target))
  {
  }
}
