/** Play time is conserved, and a snapshot restored elsewhere behaves like the original shifted in time. */
module PlaylistTime {
  import opened Common
  import opened Playlists
  import opened PlaylistRuntimes
  import opened PlaylistRuns

  // ---- Conservation of play time ----

  /** An independent stopwatch: it runs while nothing is paused. */
  datatype Stopwatch = Stopwatch(played: nat, paused: bool, last: nat)

  function Elapse(w: Stopwatch, now: nat): Stopwatch
    requires w.last <= now
  {
    Stopwatch(if w.paused then w.played else w.played + (now - w.last), w.paused, now)
  }

  function Observe(w: Stopwatch, c: Call): Stopwatch
    requires w.last <= c.now
  {
    var e := Elapse(w, c.now);
    match c
    case DoPause(_, _) => e.(paused := true)
    case DoResume(_, _) => e.(paused := false)
    case _ => e
  }

  function Left(total: nat, played: nat): nat {
    if played <= total then total - played else 0
  }

  /** The call that leaves the entry: a tick while playing, with the whole duration played. */
  predicate Leaves(w: Stopwatch, total: nat, c: Call)
    requires w.last <= c.now
  {
    c.DoTick? && !w.paused && total <= Elapse(w, c.now).played
  }

  ghost predicate Agrees(s: Runtime, w: Stopwatch, total: nat, id: string) {
    && s.currentIndex.Some?
    && s.currentId == Some(id)
    && s.lastNow == Some(w.last)
    && s.pausedRemaining.Some? == w.paused
    && s.deadline.Some?
    && if w.paused then s.pausedRemaining.value == Left(total, w.played)
       else SaturatingSub(s.deadline.value, s.lastNow.value) == Left(total, w.played)
  }

  /** Ticks, pauses and resumes on valid playlists that keep the entry, at times u64 sums cannot reach the end of. */
  ghost predicate Keeps(c: Call, id: string) {
    && c.p.Valid() && id in c.p.entries
    && c.now + DAY_MS <= U64_MAX
    && (c.DoTick? || c.DoPause? || c.DoResume?)
    && (c.DoTick? ==> ValidUnavailable(c.unavailable) && id !in c.unavailable)
  }

  /** What is reported while the entry stays. */
  ghost predicate Reports(a: Answer, w: Stopwatch, total: nat, id: string) {
    && a.Decided?
    && (if w.paused then a.decision.Paused? else a.decision.Waiting?)
    && a.decision.wallpaperId == id
    && a.decision.remaining == Left(total, w.played)
  }

  lemma {:induction false} StepConserves(s: Runtime, w: Stopwatch, total: nat, id: string, c: Call)
    requires total <= DAY_MS && Agrees(s, w, total, id) && Keeps(c, id) && w.last <= c.now
    ensures !Leaves(w, total, c) ==>
              Agrees(Step(s, c).0, Observe(w, c), total, id) && Reports(Step(s, c).1, Observe(w, c), total, id)
    ensures Leaves(w, total, c) ==>
              Step(s, c).1.Decided? && !Step(s, c).1.decision.Waiting? && !Step(s, c).1.decision.Paused?
  {
    var t := s.(lastNow := Some(c.now)).Reconcile(c.p);
    assert t.currentIndex.Some? && t.currentId == Some(id);
    assert t.deadline == s.deadline && t.pausedRemaining == s.pausedRemaining && t.lastNow == Some(c.now);
  }

  ghost function WatchAfter(w: Stopwatch, calls: seq<Call>): Stopwatch
    requires InOrder(w.last, calls)
    ensures WatchAfter(w, calls).last == if calls == [] then w.last else calls[|calls| - 1].now
  {
    if calls == [] then w
    else
      assert InOrder(w.last, calls[..|calls| - 1]);
      Observe(WatchAfter(w, calls[..|calls| - 1]), calls[|calls| - 1])
  }

  ghost predicate InOrder(first: nat, calls: seq<Call>) {
    && (calls != [] ==> first <= calls[0].now)
    && forall i :: 0 < i < |calls| ==> calls[i - 1].now <= calls[i].now
  }

  /** No call of the run is the one that leaves the entry. */
  ghost predicate Stays(w: Stopwatch, total: nat, calls: seq<Call>)
    requires InOrder(w.last, calls)
  {
    calls == [] ||
    var before := calls[..|calls| - 1];
    assert InOrder(w.last, before);
    Stays(w, total, before) && !Leaves(WatchAfter(w, before), total, calls[|calls| - 1])
  }

  /** The call selects the entry `id`. */
  ghost predicate SelectedBy(s: Runtime, c: Call, id: string) {
    var a := Step(s, c).1;
    a.Decided? && (a.decision.Started? || a.decision.Advanced?) && a.decision.wallpaperId == id
  }

  lemma {:induction false} SelectionAgrees(s: Runtime, c: Call, id: string)
    requires c.p.Valid() && c.now + DAY_MS <= U64_MAX && SelectedBy(s, c, id)
    ensures Agrees(Step(s, c).0, Stopwatch(0, false, c.now), DurationMs(c.p), id)
  {
  }

  lemma {:induction false} RunConserves(s: Runtime, w: Stopwatch, total: nat, id: string, calls: seq<Call>)
    requires total <= DAY_MS && Agrees(s, w, total, id)
    requires InOrder(w.last, calls) && Stays(w, total, calls)
    requires forall c :: c in calls ==> Keeps(c, id)
    ensures Agrees(After(s, calls), WatchAfter(w, calls), total, id)
  {
    if calls != [] {
      var before := calls[..|calls| - 1];
      assert InOrder(w.last, before);
      RunConserves(s, w, total, id, before);
      StepConserves(After(s, before), WatchAfter(w, before), total, id, calls[|calls| - 1]);
    }
  }

  /**
   * From the call that selects an entry, after any pauses, resumes and ticks, every further call
   * reports max(0, duration - unpaused time); a tick leaves the entry exactly when it is playing and
   * its unpaused time has reached the full duration. The playlist may be edited as long as it keeps
   * the entry.
   */
  lemma {:induction false} PlayTimeConserved(s: Runtime, first: Call, calls: seq<Call>, last: Call, id: string)
    requires Sound(s) && first.p.Valid() && first.now + DAY_MS <= U64_MAX
    requires SelectedBy(s, first, id)
    requires Keeps(last, id) && forall c :: c in calls ==> Keeps(c, id)
    requires InOrder(first.now, calls) && Stays(Stopwatch(0, false, first.now), DurationMs(first.p), calls)
    requires WatchAfter(Stopwatch(0, false, first.now), calls).last <= last.now
    ensures var total := DurationMs(first.p);
            var watch := WatchAfter(Stopwatch(0, false, first.now), calls);
            var answer := Step(After(Step(s, first).0, calls), last).1;
            && answer.Decided?
            && (Leaves(watch, total, last) <==> !answer.decision.Waiting? && !answer.decision.Paused?)
            && (!Leaves(watch, total, last) ==> Reports(answer, Observe(watch, last), total, id))
  {
    var total := DurationMs(first.p);
    var start := Stopwatch(0, false, first.now);
    SelectionAgrees(s, first, id);
    RunConserves(Step(s, first).0, start, total, id, calls);
    StepConserves(After(Step(s, first).0, calls), WatchAfter(start, calls), total, id, last);
  }

  // ---- Snapshot and restore ----

  /** Times measured from an origin; the same calls can then be made at two different clocks. */
  datatype Relative =
    | RelStart(p: Playlist, elapsed: nat, unavailable: seq<string>)
    | RelTick(p: Playlist, elapsed: nat, unavailable: seq<string>)
    | RelPause(p: Playlist, elapsed: nat)
    | RelResume(p: Playlist, elapsed: nat)

  /** No u64 sum made by the call can saturate. */
  predicate Fits(origin: nat, c: Relative) {
    origin + c.elapsed + DAY_MS <= U64_MAX
  }

  function CallAt(origin: nat, c: Relative): Call
    requires Fits(origin, c)
  {
    match c
    case RelStart(p, e, unavailable) => DoStart(p, origin + e, unavailable)
    case RelTick(p, e, unavailable) => DoTick(p, origin + e, unavailable)
    case RelPause(p, e) => DoPause(p, origin + e)
    case RelResume(p, e) => DoResume(p, origin + e)
  }

  function AllAt(origin: nat, calls: seq<Relative>): (r: seq<Call>)
    requires forall c :: c in calls ==> Fits(origin, c)
    ensures |r| == |calls|
  {
    if calls == [] then [] else AllAt(origin, calls[..|calls| - 1]) + [CallAt(origin, calls[|calls| - 1])]
  }

  /** The same answer up to the clock: only deadlines depend on the origin. */
  ghost predicate SameAnswer(a: Answer, origin: nat, b: Answer, origin': nat) {
    match (a, b)
    case (Decided(d), Decided(d')) =>
      (match (d, d')
       case (Started(id, i, until), Started(id', i', until')) =>
         id == id' && i == i' && until - origin == until' - origin'
       case (Advanced(id, i, until), Advanced(id', i', until')) =>
         id == id' && i == i' && until - origin == until' - origin'
       case _ => d == d')
    case _ => a == b
  }

  /** How far past `origin` a time lies. */
  function Past(t: Option<u64>, origin: nat): nat {
    if t.Some? && origin < t.value then t.value - origin else 0
  }

  /**
   * The two runtimes differ only in what no later call can see: the index (found again by every call),
   * how long ago a deadline expired, and the deadline kept on one side only while paused.
   */
  ghost predicate Similar(s: Runtime, origin: nat, s': Runtime, origin': nat) {
    && s.currentId == s'.currentId
    && s.currentIndex.Some? == s.currentId.Some? == s'.currentIndex.Some?
    && s.pausedRemaining == s'.pausedRemaining
    && s.seed == s'.seed
    && s.history == s'.history
    && (s.currentId.Some? && s.pausedRemaining.None? ==>
          s.deadline.Some? && s'.deadline.Some? && Past(s.deadline, origin) == Past(s'.deadline, origin'))
    && (s.currentId.None? ==> s.deadline.None? && s'.deadline.None? && s.pausedRemaining.None?)
    && Past(s.lastNow, origin) == Past(s'.lastNow, origin')
  }

  ghost predicate Alike(s: Runtime, a: Answer, origin: nat, s': Runtime, a': Answer, origin': nat) {
    Similar(s, origin, s', origin') && SameAnswer(a, origin, a', origin')
  }

  lemma {:induction false} ReconcileSimilar(s: Runtime, origin: nat, s': Runtime, origin': nat, p: Playlist)
    requires Similar(s, origin, s', origin') && p.Valid()
    ensures Similar(s.Reconcile(p), origin, s'.Reconcile(p), origin')
    ensures s.Reconcile(p).currentIndex == s'.Reconcile(p).currentIndex
  {
  }

  lemma {:induction false} SelectSimilar(s: Runtime, origin: nat, s': Runtime, origin': nat, p: Playlist, e: nat,
                      unavailable: seq<string>, starting: bool)
    requires p.Valid() && s.currentIndex == s'.currentIndex && s.seed == s'.seed && s.history == s'.history
    requires origin + e + DAY_MS <= U64_MAX && origin' + e + DAY_MS <= U64_MAX
    requires s.lastNow == Some(origin + e) && s'.lastNow == Some(origin' + e)
    ensures var (t, d) := s.Select(p, origin + e, unavailable, starting);
            var (t', d') := s'.Select(p, origin' + e, unavailable, starting);
            Alike(t, Decided(d), origin, t', Decided(d'), origin')
  {
  }

  lemma {:induction false} DecideSimilar(s: Runtime, origin: nat, s': Runtime, origin': nat, p: Playlist, e: nat,
                                         unavailable: seq<string>)
    requires Similar(s, origin, s', origin') && p.Valid() && s.currentIndex == s'.currentIndex
    requires s.currentIndex.Some? ==> s.currentIndex.value < |p.entries|
    requires origin + e + DAY_MS <= U64_MAX && origin' + e + DAY_MS <= U64_MAX
    requires s.lastNow == Some(origin + e) && s'.lastNow == Some(origin' + e)
    ensures var (t, d) := s.Decide(p, origin + e, unavailable);
            var (t', d') := s'.Decide(p, origin' + e, unavailable);
            Alike(t, Decided(d), origin, t', Decided(d'), origin')
  {
    SelectSimilar(s, origin, s', origin', p, e, unavailable, false);
  }

  /** Observing the time and finding the current entry again keeps the two sides similar. */
  lemma {:induction false} ObserveSimilar(s: Runtime, origin: nat, s': Runtime, origin': nat, p: Playlist, e: nat)
    requires Sound(s) && Similar(s, origin, s', origin') && p.Valid()
    requires origin + e + DAY_MS <= U64_MAX && origin' + e + DAY_MS <= U64_MAX
    requires !s.Regresses(origin + e)
    ensures !s'.Regresses(origin' + e)
    ensures var t := s.(lastNow := Some(origin + e)).Reconcile(p);
            var t' := s'.(lastNow := Some(origin' + e)).Reconcile(p);
            && Sound(t) && Similar(t, origin, t', origin') && t.currentIndex == t'.currentIndex
            && t.lastNow == Some(origin + e) && t'.lastNow == Some(origin' + e)
  {
    var t, t' := s.(lastNow := Some(origin + e)), s'.(lastNow := Some(origin' + e));
    ReconcileSimilar(t, origin, t', origin', p);
    ReconcileKeepsSound(t, p);
  }

  lemma {:induction false} TickSimilar(s: Runtime, origin: nat, s': Runtime, origin': nat, c: Relative)
    requires Sound(s) && Similar(s, origin, s', origin') && Fits(origin, c) && Fits(origin', c)
    requires c.RelTick? && c.p.Valid() && !s.Regresses(origin + c.elapsed)
    ensures var (t, a) := Step(s, CallAt(origin, c));
            var (t', a') := Step(s', CallAt(origin', c));
            Alike(t, a, origin, t', a', origin')
  {
    hide Runtime.Reconcile, Runtime.Decide, Similar;
    var now, now' := origin + c.elapsed, origin' + c.elapsed;
    ObserveSimilar(s, origin, s', origin', c.p, c.elapsed);
    var t, t' := s.(lastNow := Some(now)).Reconcile(c.p), s'.(lastNow := Some(now')).Reconcile(c.p);
    DecideSimilar(t, origin, t', origin', c.p, c.elapsed, c.unavailable);
    if ValidUnavailable(c.unavailable) {
      var (u, d) := t.Decide(c.p, now, c.unavailable);
      var (u', d') := t'.Decide(c.p, now', c.unavailable);
      assert Step(s, CallAt(origin, c)) == (u, Decided(d));
      assert Step(s', CallAt(origin', c)) == (u', Decided(d'));
    }
  }

  lemma {:induction false} FreezeThawSimilar(s: Runtime, origin: nat, s': Runtime, origin': nat, p: Playlist, e: nat)
    requires Sound(s) && Similar(s, origin, s', origin') && p.Valid() && s.currentIndex == s'.currentIndex
    requires s.currentIndex.Some? ==> s.currentIndex.value < |p.entries|
    requires origin + e + DAY_MS <= U64_MAX && origin' + e + DAY_MS <= U64_MAX
    requires s.lastNow == Some(origin + e) && s'.lastNow == Some(origin' + e)
    ensures var (t, d) := s.Freeze(p, origin + e);
            var (t', d') := s'.Freeze(p, origin' + e);
            Alike(t, Decided(d), origin, t', Decided(d'), origin')
    ensures var (t, d) := s.Thaw(p, origin + e);
            var (t', d') := s'.Thaw(p, origin' + e);
            Alike(t, Decided(d), origin, t', Decided(d'), origin')
  {
  }

  lemma {:induction false} PauseSimilar(s: Runtime, origin: nat, s': Runtime, origin': nat, c: Relative)
    requires Sound(s) && Similar(s, origin, s', origin') && Fits(origin, c) && Fits(origin', c)
    requires c.RelPause? && c.p.Valid() && !s.Regresses(origin + c.elapsed)
    ensures var (t, a) := Step(s, CallAt(origin, c));
            var (t', a') := Step(s', CallAt(origin', c));
            Alike(t, a, origin, t', a', origin')
  {
    hide Runtime.Reconcile, Runtime.Freeze, Similar, SameAnswer;
    var now, now' := origin + c.elapsed, origin' + c.elapsed;
    ObserveSimilar(s, origin, s', origin', c.p, c.elapsed);
    var t, t' := s.(lastNow := Some(now)).Reconcile(c.p), s'.(lastNow := Some(now')).Reconcile(c.p);
    FreezeThawSimilar(t, origin, t', origin', c.p, c.elapsed);
    assert Step(s, CallAt(origin, c)) == (t.Freeze(c.p, now).0, Decided(t.Freeze(c.p, now).1));
    assert Step(s', CallAt(origin', c)) == (t'.Freeze(c.p, now').0, Decided(t'.Freeze(c.p, now').1));
  }

  lemma {:induction false} ResumeSimilar(s: Runtime, origin: nat, s': Runtime, origin': nat, c: Relative)
    requires Sound(s) && Similar(s, origin, s', origin') && Fits(origin, c) && Fits(origin', c)
    requires c.RelResume? && c.p.Valid() && !s.Regresses(origin + c.elapsed)
    ensures var (t, a) := Step(s, CallAt(origin, c));
            var (t', a') := Step(s', CallAt(origin', c));
            Alike(t, a, origin, t', a', origin')
  {
    hide Runtime.Reconcile, Runtime.Thaw, Similar, SameAnswer;
    var now, now' := origin + c.elapsed, origin' + c.elapsed;
    ObserveSimilar(s, origin, s', origin', c.p, c.elapsed);
    var t, t' := s.(lastNow := Some(now)).Reconcile(c.p), s'.(lastNow := Some(now')).Reconcile(c.p);
    FreezeThawSimilar(t, origin, t', origin', c.p, c.elapsed);
    assert Step(s, CallAt(origin, c)) == (t.Thaw(c.p, now).0, Decided(t.Thaw(c.p, now).1));
    assert Step(s', CallAt(origin', c)) == (t'.Thaw(c.p, now').0, Decided(t'.Thaw(c.p, now').1));
  }

  lemma {:induction false} StartSimilar(s: Runtime, origin: nat, s': Runtime, origin': nat, c: Relative)
    requires Similar(s, origin, s', origin') && Fits(origin, c) && Fits(origin', c)
    requires c.RelStart? && c.p.Valid()
    ensures var (t, a) := Step(s, CallAt(origin, c));
            var (t', a') := Step(s', CallAt(origin', c));
            Alike(t, a, origin, t', a', origin')
  {
  }

  lemma {:induction false} StepSimilar(s: Runtime, origin: nat, s': Runtime, origin': nat, c: Relative)
    requires Sound(s) && Similar(s, origin, s', origin') && Fits(origin, c) && Fits(origin', c)
    ensures var (t, a) := Step(s, CallAt(origin, c));
            var (t', a') := Step(s', CallAt(origin', c));
            Alike(t, a, origin, t', a', origin')
  {
    assert s.Regresses(origin + c.elapsed) == s'.Regresses(origin' + c.elapsed);
    if c.p.Valid() {
      if c.RelStart? {
        StartSimilar(s, origin, s', origin', c);
      } else if !s.Regresses(origin + c.elapsed) {
        if c.RelTick? {
          TickSimilar(s, origin, s', origin', c);
        } else if c.RelPause? {
          PauseSimilar(s, origin, s', origin', c);
        } else {
          ResumeSimilar(s, origin, s', origin', c);
        }
      }
    }
  }

  lemma {:induction false} RunSimilar(s: Runtime, origin: nat, s': Runtime, origin': nat, calls: seq<Relative>)
    requires Sound(s) && Similar(s, origin, s', origin')
    requires forall c :: c in calls ==> Fits(origin, c) && Fits(origin', c)
    ensures Sound(After(s, AllAt(origin, calls)))
    ensures Similar(After(s, AllAt(origin, calls)), origin, After(s', AllAt(origin', calls)), origin')
    ensures forall i :: 0 <= i < |calls| ==>
              SameAnswer(Answers(s, AllAt(origin, calls))[i], origin, Answers(s', AllAt(origin', calls))[i], origin')
  {
    if calls != [] {
      var before := calls[..|calls| - 1];
      var last := calls[|calls| - 1];
      RunSimilar(s, origin, s', origin', before);
      Unroll(s, AllAt(origin, before), CallAt(origin, last));
      Unroll(s', AllAt(origin', before), CallAt(origin', last));
      StepKeepsSound(After(s, AllAt(origin, before)), CallAt(origin, last));
      StepSimilar(After(s, AllAt(origin, before)), origin, After(s', AllAt(origin', before)), origin', last);
    }
  }

  /** Restoring gives the original, reconciled with the playlist, moved to the new clock. */
  lemma {:induction false} RestoreSimilar(s: Runtime, p: Playlist, t: u64, target: Runtime, t': u64)
    requires Sound(s) && p.Valid() && !s.Regresses(t) && t' + DAY_MS <= U64_MAX
    ensures s.TakeSnapshot(p, t) == Ok(s.Capture(p, t))
    ensures target.Restore(s.Capture(p, t), p, t').1 == Ok(())
    ensures Similar(s.Reconcile(p), t, target.Restore(s.Capture(p, t), p, t').0, t')
  {
  }

  /** Reconciling early is invisible to calls that reconcile with the same playlist anyway. */
  lemma {:induction false} ReconcileEarly(s: Runtime, p: Playlist, calls: seq<Call>)
    requires forall c :: c in calls ==> c.p == p && !c.DoRestore?
    ensures Answers(s.Reconcile(p), calls) == Answers(s, calls)
    ensures var t, u := After(s, calls), After(s.Reconcile(p), calls);
            u == t || u == t.Reconcile(p)
  {
    if calls != [] {
      var before := calls[..|calls| - 1];
      ReconcileEarly(s, p, before);
      StepReconciled(After(s, before), p, calls[|calls| - 1]);
    }
  }

  lemma {:induction false} ReconcileTwice(s: Runtime, p: Playlist, now: u64)
    ensures var r := s.Reconcile(p);
            && r.Reconcile(p) == r
            && r.(lastNow := Some(now)).Reconcile(p) == s.(lastNow := Some(now)).Reconcile(p)
            && (r.seed, r.lastNow) == (s.seed, s.lastNow)
  {
  }

  lemma {:induction false} StepReconciled(s: Runtime, p: Playlist, c: Call)
    requires c.p == p && !c.DoRestore?
    ensures Step(s.Reconcile(p), c).1 == Step(s, c).1
    ensures var t, u := Step(s, c).0, Step(s.Reconcile(p), c).0;
            u == t || u == t.Reconcile(p)
  {
    hide Runtime.Reconcile, Runtime.Select, Runtime.Decide, Runtime.Freeze, Runtime.Thaw, Playlist.Valid;
    ReconcileTwice(s, p, c.now);
  }

  /** Every call uses the playlist given at restore time, or that playlist still holds the current entry. */
  ghost predicate Compatible(s: Runtime, p: Playlist, calls: seq<Relative>) {
    || (forall c :: c in calls ==> c.p == p)
    || (s.currentId.Some? ==> s.currentId.value in p.entries)
  }

  lemma {:induction false} AllAtPlaylist(origin: nat, calls: seq<Relative>, p: Playlist)
    requires forall c :: c in calls ==> Fits(origin, c) && c.p == p
    ensures forall c :: c in AllAt(origin, calls) ==> c.p == p && !c.DoRestore?
  {
    if calls != [] {
      AllAtPlaylist(origin, calls[..|calls| - 1], p);
    }
  }

  /**
   * A snapshot taken at `t` and restored at `t'` into any runtime: every later sequence of calls gets
   * the same answers as on the original, deadlines shifted by `t' - t`. Expired deadlines and paused
   * entries included; later calls may even use edited playlists as long as the restore did not lose
   * the current entry.
   */
  lemma {:induction false} RestoredRunsAlike(seed: u64, past: seq<Call>, p: Playlist, t: u64, target: Runtime,
                                             t': u64, calls: seq<Relative>)
    requires p.Valid() && !After(NewRuntime(seed), past).Regresses(t) && t' + DAY_MS <= U64_MAX
    requires forall c :: c in calls ==> Fits(t, c) && Fits(t', c)
    requires Compatible(After(NewRuntime(seed), past), p, calls)
    ensures var s := After(NewRuntime(seed), past);
            && s.TakeSnapshot(p, t).Ok?
            && var (restored, outcome) := target.Restore(s.TakeSnapshot(p, t).value, p, t');
            && outcome == Ok(())
            && forall i :: 0 <= i < |calls| ==>
                 SameAnswer(Answers(s, AllAt(t, calls))[i], t, Answers(restored, AllAt(t', calls))[i], t')
  {
    ReachableSound(seed, past);
    var s := After(NewRuntime(seed), past);
    RestoreSimilar(s, p, t, target, t');
    var restored := target.Restore(s.Capture(p, t), p, t').0;
    ReconcileKeepsSound(s, p);
    if s.currentId.Some? ==> s.currentId.value in p.entries {
      assert Similar(s, t, restored, t');
      RunSimilar(s, t, restored, t', calls);
    } else {
      RunSimilar(s.Reconcile(p), t, restored, t', calls);
      AllAtPlaylist(t, calls, p);
      ReconcileEarly(s, p, AllAt(t, calls));
    }
  }
}
