/** What holds over whole runs of the playlist runtime, with the playlist edited between calls. */
module PlaylistRuns {
  import opened Common
  import opened Playlists
  import opened PlaylistRuntimes

  datatype Call =
    | DoStart(p: Playlist, now: u64, unavailable: seq<string>)
    | DoTick(p: Playlist, now: u64, unavailable: seq<string>)
    | DoPause(p: Playlist, now: u64)
    | DoResume(p: Playlist, now: u64)
    | DoRestore(p: Playlist, now: u64, snapshot: Snapshot)

  datatype Answer = Decided(decision: Decision) | Restored | Refused(error: RuntimeError)

  function AnswerOf(r: Reply): Answer {
    match r
    case Ok(d) => Decided(d)
    case Err(e) => Refused(e)
  }

  ghost function Step(s: Runtime, c: Call): (Runtime, Answer) {
    match c
    case DoStart(p, now, unavailable) => var (t, r) := s.Start(p, now, unavailable); (t, AnswerOf(r))
    case DoTick(p, now, unavailable) => var (t, r) := s.Tick(p, now, unavailable); (t, AnswerOf(r))
    case DoPause(p, now) => var (t, r) := s.Pause(p, now); (t, AnswerOf(r))
    case DoResume(p, now) => var (t, r) := s.Resume(p, now); (t, AnswerOf(r))
    case DoRestore(p, now, snapshot) =>
      var (t, r) := s.Restore(snapshot, p, now);
      (t, if r.Ok? then Restored else Refused(r.error))
  }

  /** The state after all of `calls`. */
  ghost function After(s: Runtime, calls: seq<Call>): Runtime {
    if calls == [] then s
    else Step(After(s, calls[..|calls| - 1]), calls[|calls| - 1]).0
  }

  /** One answer for each call. */
  ghost function Answers(s: Runtime, calls: seq<Call>): (r: seq<Answer>)
    ensures |r| == |calls|
  {
    if calls == [] then []
    else
      var before := calls[..|calls| - 1];
      Answers(s, before) + [Step(After(s, before), calls[|calls| - 1]).1]
  }

  lemma {:induction false} Unroll(s: Runtime, calls: seq<Call>, c: Call)
    ensures After(s, calls + [c]) == Step(After(s, calls), c).0
    ensures Answers(s, calls + [c]) == Answers(s, calls) + [Step(After(s, calls), c).1]
  {
  }

  // ---- The reachable-state invariant, under arbitrary edits ----

  const DAY_MS := MAX_SNAPSHOT_REMAINING_MS

  ghost predicate Sound(s: Runtime) {
    && s.currentIndex.Some? == s.currentId.Some?
    && (s.currentIndex.Some? ==>
          && s.currentIndex.value < MAX_RUNTIME_ENTRIES
          && ValidName(s.currentId.value)
          && s.lastNow.Some?
          && (s.pausedRemaining.Some? || s.deadline.Some?))
    && (s.currentIndex.None? ==> s.deadline.None? && s.pausedRemaining.None?)
    && (s.pausedRemaining.Some? ==> s.pausedRemaining.value <= DAY_MS)
    && (s.deadline.Some? ==> s.deadline.value <= s.lastNow.value + DAY_MS)
    && |s.history| <= MAX_RUNTIME_ENTRIES
    && forall e :: e in s.history ==> ValidName(e)
  }

  lemma {:induction false} SelectKeepsSound(s: Runtime, p: Playlist, now: u64, unavailable: seq<string>, starting: bool)
    requires Sound(s) && p.Valid() && s.lastNow == Some(now)
    ensures Sound(s.Select(p, now, unavailable, starting).0)
  {
  }

  lemma {:induction false} ReconcileKeepsSound(s: Runtime, p: Playlist)
    requires Sound(s) && p.Valid()
    ensures Sound(s.Reconcile(p)) && s.Reconcile(p).lastNow == s.lastNow
  {
  }

  lemma {:induction false} StepKeepsSound(s: Runtime, c: Call)
    requires Sound(s)
    ensures Sound(Step(s, c).0)
  {
    hide Runtime.Reconcile, Runtime.Select;
    if c.p.Valid() {
      match c
      case DoStart(p, now, unavailable) =>
        SelectKeepsSound(Runtime(None, None, None, None, Some(now), s.seed, []), p, now, unavailable, true);
      case DoTick(p, now, unavailable) =>
        if !s.Regresses(now) {
          var t := s.(lastNow := Some(now));
          ReconcileKeepsSound(t, p);
          SelectKeepsSound(t.Reconcile(p), p, now, unavailable, false);
        }
      case DoPause(p, now) =>
        if !s.Regresses(now) {
          ReconcileKeepsSound(s.(lastNow := Some(now)), p);
        }
      case DoResume(p, now) =>
        if !s.Regresses(now) {
          ReconcileKeepsSound(s.(lastNow := Some(now)), p);
        }
      case DoRestore(p, now, snapshot) =>
        if snapshot.Validation().Ok? && snapshot.playlistId == p.id {
          ReconcileKeepsSound(Runtime(snapshot.currentIndex, snapshot.currentId,
            if snapshot.remaining.Some? then Some(SaturatingAdd(now, snapshot.remaining.value)) else None,
            snapshot.pausedRemaining, Some(now), snapshot.seed, snapshot.history), p);
        }
    }
  }

  /** Every state a run can reach is sound, whatever the playlists and snapshots passed in. */
  lemma {:induction false} ReachableSound(seed: u64, calls: seq<Call>)
    ensures Sound(After(NewRuntime(seed), calls))
  {
    if calls != [] {
      var before := calls[..|calls| - 1];
      ReachableSound(seed, before);
      StepKeepsSound(After(NewRuntime(seed), before), calls[|calls| - 1]);
    }
  }

  /** A decision that names a wallpaper names the entry at its index. */
  ghost predicate Names(p: Playlist, a: Answer) {
    a.Decided? && !a.decision.Exhausted? && !a.decision.NoEligible? ==>
      a.decision.index < |p.entries| && p.entries[a.decision.index] == a.decision.wallpaperId
  }

  lemma {:induction false} AnswersNameEntries(s: Runtime, c: Call)
    ensures Names(c.p, Step(s, c).1)
    ensures Step(s, c).1.Refused? ==> Step(s, c).0 == s
  {
    hide Playlist.NextEligible, Exclusions, LastN, Playlist.Valid;
  }

  /** Which snapshots pass validation: whatever the order of the checks, no other ones. */
  lemma {:induction false} SnapshotValidationExact(shot: Snapshot)
    ensures shot.Validation().Ok? <==>
            && shot.schemaVersion == 1
            && ValidName(shot.playlistId)
            && |shot.history| <= 1024 && (forall e :: e in shot.history ==> ValidName(e))
            && (if shot.currentIndex.None? then
                  shot.currentId.None? && shot.remaining.None? && shot.pausedRemaining.None?
                else
                  && shot.currentIndex.value < 1024
                  && shot.currentId.Some? && ValidName(shot.currentId.value)
                  && shot.remaining.Some? != shot.pausedRemaining.Some?
                  && (shot.remaining.Some? ==> shot.remaining.value <= 86400000)
                  && (shot.pausedRemaining.Some? ==> shot.pausedRemaining.value <= 86400000))
  {
    if shot.Validation().Ok? {
      assert forall e :: e in shot.history ==> ValidName(e);
    }
  }

  /** What a snapshot must pass, with the fault of each check. */
  function SnapshotChecks(shot: Snapshot): seq<(bool, SnapshotError)> {
    var placed, both := shot.currentIndex.Some?, shot.remaining.Some? && shot.pausedRemaining.Some?;
    var timed := shot.remaining.Some? || shot.pausedRemaining.Some?;
    [(shot.schemaVersion == 1, SchemaUnsupported),
     (ValidName(shot.playlistId), SnapshotIdentityInvalid),
     (|shot.history| <= 1024 && forall i :: 0 <= i < |shot.history| ==> ValidName(shot.history[i]), HistoryBounds),
     (placed == shot.currentId.Some?, PositionInconsistent),
     (placed && shot.currentId.Some? ==> shot.currentIndex.value < 1024 && ValidName(shot.currentId.value),
      PositionInvalid),
     (!both && placed == timed, TimingInconsistent),
     ((shot.remaining.Some? ==> shot.remaining.value <= 86400000)
      && (shot.pausedRemaining.Some? ==> shot.pausedRemaining.value <= 86400000), TimingBounds)]
  }

  /** The fault reported for a snapshot is that of the first check that fails. */
  lemma {:induction false} SnapshotFaultExact(shot: Snapshot, k: nat)
    requires k < 7 && !SnapshotChecks(shot)[k].0 && forall j :: 0 <= j < k ==> SnapshotChecks(shot)[j].0
    ensures shot.Validation() == Err(SnapshotChecks(shot)[k].1)
  {
    hide ValidName;
    var checks := SnapshotChecks(shot);
    assert k > 0 ==> checks[0].0;
    assert k > 1 ==> checks[1].0;
    assert k > 2 ==> checks[2].0;
    assert k > 3 ==> checks[3].0;
    assert k > 4 ==> checks[4].0;
    assert k > 5 ==> checks[5].0;
  }

  /** A snapshot taken at a time that does not regress never fails its own validation. */
  lemma {:induction false} SnapshotAlwaysValid(seed: u64, calls: seq<Call>, p: Playlist, now: u64)
    requires p.Valid()
    ensures var s := After(NewRuntime(seed), calls);
            s.TakeSnapshot(p, now) == if s.Regresses(now) then Err(TimeRegressed) else Ok(s.Capture(p, now))
  {
    ReachableSound(seed, calls);
  }

  // ---- What each call does, seen from outside ----

  /** The current wallpaper is still an entry of the playlist. */
  predicate Playing(s: Runtime, p: Playlist) {
    s.currentId.Some? && s.currentId.value in p.entries
  }

  function Place(s: Runtime, p: Playlist): Option<nat> {
    if s.currentId.Some? then IndexOf(p.entries, s.currentId.value) else None
  }

  lemma {:induction false} PlaceFound(s: Runtime, p: Playlist)
    requires p.Valid()
    ensures s.Reconcile(p).currentIndex == Place(s, p)
    ensures Place(s, p).Some? <==> Playing(s, p)
  {
    if Place(s, p).Some? {
      assert p.entries[Place(s, p).value] in p.entries;
    }
  }

  /** An entry the mode allows from here that is available and, without repeat, not yet played. */
  ghost predicate Fresh(p: Playlist, from: Option<nat>, history: seq<string>, unavailable: seq<string>, i: nat) {
    && Permitted(p, from, i)
    && p.entries[i] !in unavailable
    && (p.repeating || p.entries[i] !in history)
  }

  /** Some fresh entry is selected and played in full from now, or there is none and nothing plays. */
  ghost predicate Selects(s: Runtime, t: Runtime, d: Decision, p: Playlist, from: Option<nat>, now: u64,
                          unavailable: seq<string>, starting: bool) {
    && t.lastNow == s.lastNow
    && t.pausedRemaining.None?
    && if exists i: nat :: Fresh(p, from, s.history, unavailable, i) then
         && (if starting then d.Started? else d.Advanced?)
         && Fresh(p, from, s.history, unavailable, d.index)
         && d.wallpaperId == p.entries[d.index]
         && d.deadline == SaturatingAdd(now, p.durationSeconds * 1000)
         && t.currentIndex == Some(d.index) && t.currentId == Some(d.wallpaperId) && t.deadline == Some(d.deadline)
         && t.history == LastN(s.history + [d.wallpaperId], MAX_RUNTIME_ENTRIES)
         && t.seed == if s.seed == U64_MAX then 0 else s.seed + 1
       else
         && d == (if !p.repeating && s.history != [] then Exhausted else NoEligible)
         && t.currentId.None? && t.currentIndex.None? && t.deadline.None?
         && t.history == s.history && t.seed == s.seed
  }

  lemma {:induction false} SelectExact(s: Runtime, p: Playlist, now: u64, unavailable: seq<string>, starting: bool)
    requires p.Valid()
    ensures var (t, d) := s.Select(p, now, unavailable, starting);
            Selects(s, t, d, p, s.currentIndex, now, unavailable, starting)
  {
    hide Playlist.NextEligible;
    var excluded := Exclusions(p.entries, unavailable, s.history, p.repeating);
    SelectionExact(p, s.currentIndex, s.seed, excluded);
    forall i: nat
      ensures Candidate(p, s.currentIndex, excluded, i) <==> Fresh(p, s.currentIndex, s.history, unavailable, i)
    {
      if i < |p.entries| {
        assert p.entries[i] in p.entries;
      }
    }
  }

  /** `start` plays some available entry, whatever was played before. */
  lemma {:induction false} StartExact(s: Runtime, p: Playlist, now: u64, unavailable: seq<string>)
    requires p.Valid() && ValidUnavailable(unavailable)
    ensures var blank := Runtime(None, None, None, None, Some(now), s.seed, []);
            var (t, r) := s.Start(p, now, unavailable);
            r.Ok? && Selects(blank, t, r.value, p, None, now, unavailable, true)
  {
    hide Runtime.Select, Playlist.Valid;
    SelectExact(Runtime(None, None, None, None, Some(now), s.seed, []), p, now, unavailable, true);
  }

  /**
   * A tick in time keeps a paused entry paused, waits on an available one that has time left, and otherwise
   * selects: also away from an entry that has become unavailable.
   */
  lemma {:induction false} TickExact(s: Runtime, p: Playlist, now: u64, unavailable: seq<string>)
    requires p.Valid() && ValidUnavailable(unavailable) && !s.Regresses(now)
    ensures var (t, r) := s.Tick(p, now, unavailable);
            var seen := s.(lastNow := Some(now), currentIndex := Place(s, p));
            && r.Ok?
            && if Playing(s, p) && s.pausedRemaining.Some? then
                 r.value == Paused(s.currentId.value, Place(s, p).value, s.pausedRemaining.value) && t == seen
               else if Playing(s, p) && s.deadline.Some? && now < s.deadline.value
                       && s.currentId.value !in unavailable then
                 r.value == Waiting(s.currentId.value, Place(s, p).value, s.deadline.value - now) && t == seen
               else
                 Selects(seen, t, r.value, p, Place(s, p), now, unavailable, false)
  {
    hide Runtime.Reconcile, Runtime.Select, Playlist.Valid, IndexOf;
    var seen := s.(lastNow := Some(now));
    PlaceFound(seen, p);
    ReconcileExact(seen, p);
    SelectExact(seen.Reconcile(p), p, now, unavailable, false);
  }

  /** Where a run has not started, or was cut short, pausing and resuming say so and change nothing but the time. */
  lemma {:induction false} NothingPlaying(s: Runtime, p: Playlist, now: u64)
    requires p.Valid() && !s.Regresses(now) && !Playing(s, p)
    ensures s.Pause(p, now) == s.Resume(p, now)
    ensures s.Pause(p, now).1 == Ok(if !p.repeating && s.history != [] then Exhausted else NoEligible)
    ensures s.Pause(p, now).0.currentIndex.None? && s.Pause(p, now).0.lastNow == Some(now)
  {
    hide Runtime.Reconcile, Playlist.Valid;
    PlaceFound(s.(lastNow := Some(now)), p);
    ReconcileExact(s.(lastNow := Some(now)), p);
  }

  /** A call is refused exactly for the reasons its checks give, the first one that holds. */
  ghost function Refusal(s: Runtime, c: Call): Option<RuntimeError> {
    if c.DoRestore? && c.snapshot.Validation().Err? then Some(BadSnapshot(c.snapshot.Validation().error))
    else if !c.p.Valid() then Some(BadPlaylist(c.p.Validation().error))
    else if (c.DoStart? || c.DoTick?) && !ValidUnavailable(c.unavailable) then Some(UnavailableBounds)
    else if c.DoRestore? && c.snapshot.playlistId != c.p.id then Some(OtherPlaylist)
    else if (c.DoTick? || c.DoPause? || c.DoResume?) && s.lastNow.Some? && c.now < s.lastNow.value then
      Some(TimeRegressed)
    else None
  }

  lemma {:induction false} RefusedExactly(s: Runtime, c: Call)
    ensures Step(s, c).1.Refused? <==> Refusal(s, c).Some?
    ensures Step(s, c).1.Refused? ==> Step(s, c) == (s, Refused(Refusal(s, c).value))
    ensures !Step(s, c).1.Refused? ==> Step(s, c).0.lastNow == Some(c.now)
  {
    hide Runtime.Select, Playlist.Valid, Playlist.Validation, Snapshot.Validation;
    hide Runtime.Reconcile;
    var seen := s.(lastNow := Some(c.now));
    ReconcileExact(seen, c.p);
    match c
    case DoStart(p, now, unavailable) =>
      SelectKeepsTime(Runtime(None, None, None, None, Some(now), s.seed, []), p, now, unavailable, true);
    case DoTick(p, now, unavailable) => SelectKeepsTime(seen.Reconcile(p), p, now, unavailable, false);
    case DoPause(_, _) =>
    case DoResume(_, _) =>
    case DoRestore(p, now, snapshot) =>
      ReconcileExact(Runtime(snapshot.currentIndex, snapshot.currentId,
        if snapshot.remaining.Some? then Some(SaturatingAdd(now, snapshot.remaining.value)) else None,
        snapshot.pausedRemaining, Some(now), snapshot.seed, snapshot.history), p);
  }

  lemma {:induction false} SelectKeepsTime(s: Runtime, p: Playlist, now: u64, unavailable: seq<string>, starting: bool)
    ensures s.Select(p, now, unavailable, starting).0.lastNow == s.lastNow
  {
  }

  // ---- Non-repeating play ----

  /** The wallpapers selected by a run, in order. */
  ghost function Selections(answers: seq<Answer>): seq<string> {
    if answers == [] then []
    else
      var before := Selections(answers[..|answers| - 1]);
      var last := answers[|answers| - 1];
      if last.Decided? && (last.decision.Started? || last.decision.Advanced?)
      then before + [last.decision.wallpaperId] else before
  }

  lemma {:induction false} SelectionsAppend(answers: seq<Answer>, a: Answer)
    ensures Selections(answers + [a]) ==
            if a.Decided? && (a.decision.Started? || a.decision.Advanced?)
            then Selections(answers) + [a.decision.wallpaperId] else Selections(answers)
  {
  }

  predicate Plays(c: Call, p: Playlist) {
    c.p == p && (c.DoTick? || c.DoPause? || c.DoResume?)
  }

  ghost predicate PlayedOnce(p: Playlist, history: seq<string>) {
    Distinct(history) && forall e :: e in history ==> e in p.entries
  }

  /** A selection takes an entry not yet played, and neither bound cuts anything off. */
  lemma {:induction false} SelectPlaysNew(s: Runtime, p: Playlist, now: u64, unavailable: seq<string>, starting: bool)
    requires p.Valid() && !p.repeating && PlayedOnce(p, s.history)
    ensures |Exclusions(p.entries, unavailable, s.history, p.repeating)| <= MAX_ENTRIES
    ensures var (t, d) := s.Select(p, now, unavailable, starting);
            && PlayedOnce(p, t.history)
            && t.history == (if d.Started? || d.Advanced? then s.history + [d.wallpaperId] else s.history)
  {
    var excluded := Exclusions(p.entries, unavailable, s.history, p.repeating);
    SelectionExact(p, s.currentIndex, s.seed, excluded);
    var choice := s.Choice(p, unavailable);
    if choice.Some? {
      var id := p.entries[choice.value];
      assert id !in s.history;
      assert PlayedOnce(p, s.history + [id]);
      DistinctFits(s.history + [id], p.entries);
    }
  }

  lemma {:induction false} StepPlaysNew(s: Runtime, p: Playlist, c: Call)
    requires p.Valid() && !p.repeating && PlayedOnce(p, s.history) && Plays(c, p)
    ensures var (t, a) := Step(s, c);
            && PlayedOnce(p, t.history)
            && t.history == (if a.Decided? && (a.decision.Started? || a.decision.Advanced?)
                             then s.history + [a.decision.wallpaperId] else s.history)
  {
    hide Playlist.Valid, Playlist.NextEligible, Exclusions, Runtime.Select, PlayedOnce;
    if c.DoTick? && !s.Regresses(c.now) {
      SelectPlaysNew(s.(lastNow := Some(c.now)).Reconcile(p), p, c.now, c.unavailable, false);
    }
  }

  /**
   * From `start`, a fixed non-repeating playlist plays no entry twice, whatever is unavailable when,
   * shuffled or not: the history is exactly the list of selections, so there are at most as many
   * selections as entries.
   */
  lemma {:induction false} NoEntryPlaysTwice(s: Runtime, p: Playlist, now: u64, unavailable: seq<string>,
                                             calls: seq<Call>)
    requires p.Valid() && !p.repeating && ValidUnavailable(unavailable)
    requires forall c :: c in calls ==> Plays(c, p)
    ensures var run := [DoStart(p, now, unavailable)] + calls;
            && Selections(Answers(s, run)) == After(s, run).history
            && PlayedOnce(p, After(s, run).history)
            && |After(s, run).history| <= |p.entries|
  {
    var first := DoStart(p, now, unavailable);
    if calls == [] {
      Unroll(s, [], first);
      assert [first] + calls == [] + [first];
      SelectPlaysNew(Runtime(None, None, None, None, Some(now), s.seed, []), p, now, unavailable, true);
      SelectionsAppend([], Step(s, first).1);
    } else {
      var before := calls[..|calls| - 1];
      var last := calls[|calls| - 1];
      NoEntryPlaysTwice(s, p, now, unavailable, before);
      assert [first] + calls == ([first] + before) + [last];
      Unroll(s, [first] + before, last);
      StepPlaysNew(After(s, [first] + before), p, last);
      SelectionsAppend(Answers(s, [first] + before), Step(After(s, [first] + before), last).1);
    }
    DistinctFits(After(s, [first] + calls).history, p.entries);
  }

  // ---- Repeating sequential play ----

  ghost function SelectedIndices(answers: seq<Answer>): seq<nat> {
    if answers == [] then []
    else
      var before := SelectedIndices(answers[..|answers| - 1]);
      var last := answers[|answers| - 1];
      if last.Decided? && (last.decision.Started? || last.decision.Advanced?)
      then before + [last.decision.index] else before
  }

  lemma {:induction false} SelectedIndicesAppend(answers: seq<Answer>, a: Answer)
    ensures SelectedIndices(answers + [a]) ==
            if a.Decided? && (a.decision.Started? || a.decision.Advanced?)
            then SelectedIndices(answers) + [a.decision.index] else SelectedIndices(answers)
  {
  }

  predicate PlaysEverything(c: Call, p: Playlist) {
    Plays(c, p) && (c.DoTick? ==> c.unavailable == [])
  }

  lemma {:induction false} MultipleAtLeast(n: int, k: int)
    requires 0 <= n
    ensures k >= 1 ==> n * k >= n
    ensures k <= -1 ==> n * k <= -n
  {
  }

  lemma {:induction false} UniqueRemainder(n: nat, q: int, r: int, d: int, e: int)
    requires 0 <= r < n && 0 <= e < n
    requires n * q + r == n * d + e
    ensures r == e
  {
    assert n * (d - q) == n * d - n * q;
    MultipleAtLeast(n, d - q);
  }

  lemma {:induction false} NextModulo(m: nat, n: nat)
    requires 0 < n
    ensures (m % n + 1) % n == (m + 1) % n
  {
    var q, r := m / n, m % n;
    WrapOnce(r + 1, n);
    if r + 1 == n {
      assert n * (q + 1) == n * q + n;
      UniqueRemainder(n, q + 1, 0, (m + 1) / n, (m + 1) % n);
    } else {
      UniqueRemainder(n, q, r + 1, (m + 1) / n, (m + 1) % n);
    }
  }

  /** Selecting with nothing excluded takes the entry right after the current one. */
  lemma {:induction false} SelectTakesNext(s: Runtime, p: Playlist, now: u64, starting: bool)
    requires p.Valid() && p.repeating && !p.shuffle && p.entries != []
    requires s.currentIndex.Some? ==> s.currentIndex.value < |p.entries|
    ensures s.Choice(p, []) == Some((if s.currentIndex.Some? then s.currentIndex.value + 1 else 0) % |p.entries|)
  {
  }

  ghost predicate RoundRobin(p: Playlist, s: Runtime, played: seq<nat>)
    requires p.entries != []
  {
    && played != []
    && (forall k :: 0 <= k < |played| ==> played[k] == k % |p.entries|)
    && s.currentIndex == Some(played[|played| - 1])
    && s.currentId == Some(p.entries[played[|played| - 1]])
  }

  /** A call either keeps the current entry or advances to the one right after it. */
  lemma {:induction false} StepTakesNext(s: Runtime, p: Playlist, c: Call, i: nat)
    requires p.Valid() && p.repeating && !p.shuffle && i < |p.entries|
    requires PlaysEverything(c, p) && s.currentIndex == Some(i) && s.currentId == Some(p.entries[i])
    ensures var (t, a) := Step(s, c);
            var selects := a.Decided? && (a.decision.Started? || a.decision.Advanced?);
            var next := if selects then (i + 1) % |p.entries| else i;
            && t.currentIndex == Some(next) && t.currentId == Some(p.entries[next])
            && (selects ==> a.decision.index == next)
  {
    hide Playlist.NextEligible, Exclusions;
    if c.DoTick? && !s.Regresses(c.now) {
      var t := s.(lastNow := Some(c.now)).Reconcile(p);
      assert t == s.(lastNow := Some(c.now));
      SelectTakesNext(t, p, c.now, false);
    }
  }

  lemma {:induction false} StepRoundRobin(s: Runtime, p: Playlist, c: Call, played: seq<nat>)
    requires p.Valid() && p.repeating && !p.shuffle && p.entries != []
    requires PlaysEverything(c, p) && RoundRobin(p, s, played)
    ensures var (t, a) := Step(s, c);
            RoundRobin(p, t, if a.Decided? && (a.decision.Started? || a.decision.Advanced?)
                             then played + [a.decision.index] else played)
  {
    hide Step, Playlist.Valid;
    StepTakesNext(s, p, c, played[|played| - 1]);
    NextModulo(|played| - 1, |p.entries|);
  }

  lemma {:induction false} StartRoundRobin(s: Runtime, p: Playlist, now: u64)
    requires p.Valid() && p.repeating && !p.shuffle && p.entries != []
    ensures var run := [DoStart(p, now, [])];
            RoundRobin(p, After(s, run), SelectedIndices(Answers(s, run)))
  {
    var first := DoStart(p, now, []);
    Unroll(s, [], first);
    assert [] + [first] == [first];
    SelectTakesNext(Runtime(None, None, None, None, Some(now), s.seed, []), p, now, true);
    SelectedIndicesAppend([], Step(s, first).1);
    assert 0 % |p.entries| == 0;
  }

  /** The k-th selection of a repeating sequential playlist with everything available is entry k mod n. */
  lemma {:induction false} PlaysRoundRobin(s: Runtime, p: Playlist, now: u64, calls: seq<Call>)
    requires p.Valid() && p.repeating && !p.shuffle && p.entries != []
    requires forall c :: c in calls ==> PlaysEverything(c, p)
    ensures var run := [DoStart(p, now, [])] + calls;
            RoundRobin(p, After(s, run), SelectedIndices(Answers(s, run)))
  {
    hide Step, RoundRobin;
    var first := DoStart(p, now, []);
    if calls == [] {
      StartRoundRobin(s, p, now);
      assert [first] + calls == [first];
    } else {
      var before := calls[..|calls| - 1];
      var last := calls[|calls| - 1];
      PlaysRoundRobin(s, p, now, before);
      assert [first] + calls == ([first] + before) + [last];
      Unroll(s, [first] + before, last);
      var answers := Answers(s, [first] + before);
      StepRoundRobin(After(s, [first] + before), p, last, SelectedIndices(answers));
      SelectedIndicesAppend(answers, Step(After(s, [first] + before), last).1);
    }
  }
}
