/**
 * The playlist state machine (crates/kwe-core/src/playlist_runtime.rs).
 *
 * `Runtime` and its functions say what each call does to the state; the class `PlaylistRuntime`
 * updates its fields in place and is proved to do exactly that.
 */
module PlaylistRuntimes {
  import opened Common
  import opened Playlists

  const MAX_RUNTIME_ENTRIES := 1024
  const SNAPSHOT_SCHEMA_VERSION := 1
  const MAX_SNAPSHOT_REMAINING_MS := 24 * 60 * 60 * 1000

  datatype SnapshotError =
    | SchemaUnsupported
    | SnapshotIdentityInvalid
    | HistoryBounds
    | PositionInvalid
    | PositionInconsistent
    | TimingInconsistent
    | TimingBounds

  datatype RuntimeError =
    | BadPlaylist(fault: PlaylistError)
    | BadSnapshot(flaw: SnapshotError)
    | UnavailableBounds
    | TimeRegressed
    | OtherPlaylist

  /** Only durations are stored, never deadlines. */
  datatype Snapshot = Snapshot(
    schemaVersion: u32,
    playlistId: string,
    seed: u64,
    currentIndex: Option<nat>,
    currentId: Option<string>,
    remaining: Option<u64>,
    pausedRemaining: Option<u64>,
    history: seq<string>)
  {
    function Validation(): Result<(), SnapshotError> {
      if schemaVersion != SNAPSHOT_SCHEMA_VERSION then Err(SchemaUnsupported)
      else if !ValidName(playlistId) then Err(SnapshotIdentityInvalid)
      else if |history| > MAX_RUNTIME_ENTRIES || exists e :: e in history && !ValidName(e) then Err(HistoryBounds)
      else if currentIndex.Some? != currentId.Some? then Err(PositionInconsistent)
      else if currentIndex.Some? && (currentIndex.value >= MAX_RUNTIME_ENTRIES || !ValidName(currentId.value)) then
        Err(PositionInvalid)
      else if (currentIndex.Some? && remaining.Some? == pausedRemaining.Some?)
              || (currentIndex.None? && (remaining.Some? || pausedRemaining.Some?)) then Err(TimingInconsistent)
      else if (remaining.Some? && remaining.value > MAX_SNAPSHOT_REMAINING_MS)
              || (pausedRemaining.Some? && pausedRemaining.value > MAX_SNAPSHOT_REMAINING_MS) then Err(TimingBounds)
      else Ok(())
    }
  }

  datatype Decision =
    | Started(wallpaperId: string, index: nat, deadline: u64)
    | Waiting(wallpaperId: string, index: nat, remaining: u64)
    | Advanced(wallpaperId: string, index: nat, deadline: u64)
    | Paused(wallpaperId: string, index: nat, remaining: u64)
    | Exhausted
    | NoEligible

  function IndexOf(s: seq<string>, x: string): (r: Option<nat>)
    ensures r.Some? ==> r.value < |s| && s[r.value] == x && x !in s[..r.value]
    ensures r.None? ==> x !in s
  {
    if s == [] then None
    else if s[0] == x then Some(0)
    else
      var rest := IndexOf(s[1..], x);
      assert s == [s[0]] + s[1..];
      if rest.Some? then
        assert s[..rest.value + 1] == [s[0]] + s[1..][..rest.value];
        Some(rest.value + 1)
      else None
  }

  /** The entries a selection must avoid, in playlist order. */
  function Exclusions(entries: seq<string>, unavailable: seq<string>, seen: seq<string>, repeating: bool)
    : (r: seq<string>)
    ensures forall e :: e in r <==> e in entries && (e in unavailable || (!repeating && e in seen))
    ensures |r| <= |entries|
  {
    if entries == [] then []
    else
      var last := entries[|entries| - 1];
      var init := entries[..|entries| - 1];
      assert entries == init + [last];
      var before := Exclusions(init, unavailable, seen, repeating);
      if last in unavailable || (!repeating && last in seen) then before + [last] else before
  }

  predicate ValidUnavailable(unavailable: seq<string>) {
    |unavailable| <= MAX_RUNTIME_ENTRIES && forall e :: e in unavailable ==> ValidName(e)
  }

  type Reply = Result<Decision, RuntimeError>

  datatype Runtime = Runtime(
    currentIndex: Option<nat>,
    currentId: Option<string>,
    deadline: Option<u64>,
    pausedRemaining: Option<u64>,
    lastNow: Option<u64>,
    seed: u64,
    history: seq<string>)
  {
    /** Finds the current wallpaper again in a playlist that may have been edited. */
    function Reconcile(p: Playlist): (r: Runtime)
      ensures r.currentIndex.Some? ==>
                && r.currentIndex.value < |p.entries|
                && r.currentId == Some(p.entries[r.currentIndex.value])
    {
      if currentId.None? then this.(currentIndex := None)
      else if currentIndex.Some? && currentIndex.value < |p.entries|
              && p.entries[currentIndex.value] == currentId.value then this
      else
        var found := IndexOf(p.entries, currentId.value);
        if found.Some? then this.(currentIndex := found)
        else this.(currentIndex := None, currentId := None, deadline := None, pausedRemaining := None)
    }

    function Empty(p: Playlist): Decision {
      if !p.repeating && history != [] then Exhausted else NoEligible
    }

    function Choice(p: Playlist, unavailable: seq<string>): (r: Option<nat>)
      ensures r.Some? ==> r.value < |p.entries|
    {
      p.NextEligible(currentIndex, seed, Exclusions(p.entries, unavailable, history, p.repeating))
    }

    function Select(p: Playlist, now: u64, unavailable: seq<string>, starting: bool): (Runtime, Decision) {
      var choice := Choice(p, unavailable);
      if choice.None? then
        (this.(currentIndex := None, currentId := None, deadline := None, pausedRemaining := None), Empty(p))
      else
        var id := p.entries[choice.value];
        var until := SaturatingAdd(now, DurationMs(p));
        (Runtime(choice, Some(id), Some(until), None, lastNow, WrappingInc(seed),
                 LastN(history + [id], MAX_RUNTIME_ENTRIES)),
         if starting then Started(id, choice.value, until) else Advanced(id, choice.value, until))
    }

    predicate Regresses(now: u64) {
      lastNow.Some? && now < lastNow.value
    }

    ghost function Start(p: Playlist, now: u64, unavailable: seq<string>): (Runtime, Reply) {
      if !p.Valid() then (this, Err(BadPlaylist(p.Validation().error)))
      else if !ValidUnavailable(unavailable) then (this, Err(UnavailableBounds))
      else
        var (after, decision) :=
          Runtime(None, None, None, None, Some(now), seed, []).Select(p, now, unavailable, true);
        (after, Ok(decision))
    }

    ghost function Tick(p: Playlist, now: u64, unavailable: seq<string>): (Runtime, Reply) {
      if !p.Valid() then (this, Err(BadPlaylist(p.Validation().error)))
      else if !ValidUnavailable(unavailable) then (this, Err(UnavailableBounds))
      else if Regresses(now) then (this, Err(TimeRegressed))
      else
        var (after, decision) := this.(lastNow := Some(now)).Reconcile(p).Decide(p, now, unavailable);
        (after, Ok(decision))
    }

    /** A tick once the current entry has been found again: stay paused, wait, or select. */
    function Decide(p: Playlist, now: u64, unavailable: seq<string>): (Runtime, Decision)
      requires currentIndex.Some? ==> currentIndex.value < |p.entries|
    {
      if currentIndex.Some? && pausedRemaining.Some? then
        var i := currentIndex.value;
        (this, Paused(p.entries[i], i, pausedRemaining.value))
      else if currentIndex.Some? && deadline.Some? && now < deadline.value
              && p.entries[currentIndex.value] !in unavailable then
        var i := currentIndex.value;
        (this, Waiting(p.entries[i], i, deadline.value - now))
      else
        Select(p, now, unavailable, false)
    }

    ghost function Pause(p: Playlist, now: u64): (Runtime, Reply) {
      if !p.Valid() then (this, Err(BadPlaylist(p.Validation().error)))
      else if Regresses(now) then (this, Err(TimeRegressed))
      else
        var (after, decision) := this.(lastNow := Some(now)).Reconcile(p).Freeze(p, now);
        (after, Ok(decision))
    }

    function Freeze(p: Playlist, now: u64): (Runtime, Decision)
      requires currentIndex.Some? ==> currentIndex.value < |p.entries|
    {
      if currentIndex.None? then (this, Empty(p))
      else
        var i := currentIndex.value;
        var left := if pausedRemaining.Some? then pausedRemaining.value
                    else SaturatingSub(if deadline.Some? then deadline.value else now, now);
        (this.(pausedRemaining := Some(left)), Paused(p.entries[i], i, left))
    }

    ghost function Resume(p: Playlist, now: u64): (Runtime, Reply) {
      if !p.Valid() then (this, Err(BadPlaylist(p.Validation().error)))
      else if Regresses(now) then (this, Err(TimeRegressed))
      else
        var (after, decision) := this.(lastNow := Some(now)).Reconcile(p).Thaw(p, now);
        (after, Ok(decision))
    }

    function Thaw(p: Playlist, now: u64): (Runtime, Decision)
      requires currentIndex.Some? ==> currentIndex.value < |p.entries|
    {
      if currentIndex.None? then (this, Empty(p))
      else
        var i := currentIndex.value;
        var s := if pausedRemaining.Some? then
                   this.(deadline := Some(SaturatingAdd(now, pausedRemaining.value)), pausedRemaining := None)
                 else this;
        (s, Waiting(p.entries[i], i, SaturatingSub(if s.deadline.Some? then s.deadline.value else now, now)))
    }

    function Capture(p: Playlist, now: u64): Snapshot {
      Snapshot(SNAPSHOT_SCHEMA_VERSION, p.id, seed, currentIndex, currentId,
               if pausedRemaining.None? && currentIndex.Some? && deadline.Some?
               then Some(SaturatingSub(deadline.value, now)) else None,
               pausedRemaining,
               history)
    }

    ghost function TakeSnapshot(p: Playlist, now: u64): Result<Snapshot, RuntimeError> {
      if !p.Valid() then Err(BadPlaylist(p.Validation().error))
      else if Regresses(now) then Err(TimeRegressed)
      else if Capture(p, now).Validation().Err? then Err(BadSnapshot(Capture(p, now).Validation().error))
      else Ok(Capture(p, now))
    }

    ghost function Restore(snapshot: Snapshot, p: Playlist, now: u64): (Runtime, Result<(), RuntimeError>) {
      if snapshot.Validation().Err? then (this, Err(BadSnapshot(snapshot.Validation().error)))
      else if !p.Valid() then (this, Err(BadPlaylist(p.Validation().error)))
      else if snapshot.playlistId != p.id then (this, Err(OtherPlaylist))
      else
        (Runtime(snapshot.currentIndex,
                 snapshot.currentId,
                 if snapshot.remaining.Some? then Some(SaturatingAdd(now, snapshot.remaining.value)) else None,
                 snapshot.pausedRemaining,
                 Some(now),
                 snapshot.seed,
                 snapshot.history).Reconcile(p),
         Ok(()))
    }
  }

  /**
   * Reconciling keeps a wallpaper the playlist still has, position and timing included, at an index that
   * names it; one the playlist has lost takes position and timing with it. Nothing else changes.
   */
  lemma {:induction false} ReconcileExact(s: Runtime, p: Playlist)
    ensures var r := s.Reconcile(p);
            && (r.lastNow, r.seed, r.history) == (s.lastNow, s.seed, s.history)
            && (s.currentId.None? ==> r == s.(currentIndex := None))
            && (s.currentId.Some? && s.currentId.value in p.entries ==>
                  && r.currentIndex.Some? && r.currentIndex.value < |p.entries|
                  && p.entries[r.currentIndex.value] == s.currentId.value
                  && r == s.(currentIndex := r.currentIndex))
            && (s.currentId.Some? && s.currentId.value !in p.entries ==>
                  r == s.(currentIndex := None, currentId := None, deadline := None, pausedRemaining := None))
  {
    if s.currentId.Some? {
      var found := IndexOf(p.entries, s.currentId.value);
      assert found.Some? ==> p.entries[found.value] in p.entries;
    }
  }

  function DurationMs(p: Playlist): u64 {
    p.durationSeconds * 1000
  }

  function NewRuntime(seed: u64): Runtime {
    Runtime(None, None, None, None, None, seed, [])
  }

  /** The runtime object: every method leaves exactly the state the function of that name gives. */
  class PlaylistRuntime {
    var currentIndex: Option<nat>
    var currentId: Option<string>
    var deadline: Option<u64>
    var pausedRemaining: Option<u64>
    var lastNow: Option<u64>
    var seed: u64
    var history: seq<string>

    function State(): Runtime
      reads this
    {
      Runtime(currentIndex, currentId, deadline, pausedRemaining, lastNow, seed, history)
    }

    constructor (seed: u64)
      ensures State() == NewRuntime(seed)
    {
      this.currentIndex := None;
      this.currentId := None;
      this.deadline := None;
      this.pausedRemaining := None;
      this.lastNow := None;
      this.seed := seed;
      this.history := [];
    }

    method Start(p: Playlist, now: u64, unavailable: seq<string>) returns (r: Reply)
      modifies this
      ensures (State(), r) == old(State()).Start(p, now, unavailable)
    {
      var valid := Validate(p);
      if valid.Err? {
        return Err(BadPlaylist(valid.error));
      }
      if !ValidUnavailable(unavailable) {
        return Err(UnavailableBounds);
      }
      currentIndex := None;
      currentId := None;
      deadline := None;
      pausedRemaining := None;
      lastNow := Some(now);
      history := [];
      var decision := Select(p, now, unavailable, true);
      return Ok(decision);
    }

    method Tick(p: Playlist, now: u64, unavailable: seq<string>) returns (r: Reply)
      modifies this
      ensures (State(), r) == old(State()).Tick(p, now, unavailable)
    {
      var valid := Validate(p);
      if valid.Err? {
        return Err(BadPlaylist(valid.error));
      }
      if !ValidUnavailable(unavailable) {
        return Err(UnavailableBounds);
      }
      var inOrder := ObserveTime(now);
      if !inOrder {
        return Err(TimeRegressed);
      }
      ReconcileCurrent(p);
      if currentIndex.Some? && pausedRemaining.Some? {
        return Ok(Paused(p.entries[currentIndex.value], currentIndex.value, pausedRemaining.value));
      }
      var currentUnavailable := currentIndex.Some? && p.entries[currentIndex.value] in unavailable;
      if currentIndex.Some? && deadline.Some? && now < deadline.value && !currentUnavailable {
        return Ok(Waiting(p.entries[currentIndex.value], currentIndex.value, deadline.value - now));
      }
      var decision := Select(p, now, unavailable, false);
      return Ok(decision);
    }

    method Pause(p: Playlist, now: u64) returns (r: Reply)
      modifies this
      ensures (State(), r) == old(State()).Pause(p, now)
    {
      var valid := Validate(p);
      if valid.Err? {
        return Err(BadPlaylist(valid.error));
      }
      var inOrder := ObserveTime(now);
      if !inOrder {
        return Err(TimeRegressed);
      }
      ReconcileCurrent(p);
      if currentIndex.None? {
        return Ok(State().Empty(p));
      }
      var left: u64;
      if pausedRemaining.Some? {
        left := pausedRemaining.value;
      } else {
        left := SaturatingSub(if deadline.Some? then deadline.value else now, now);
      }
      pausedRemaining := Some(left);
      return Ok(Paused(p.entries[currentIndex.value], currentIndex.value, left));
    }

    method Resume(p: Playlist, now: u64) returns (r: Reply)
      modifies this
      ensures (State(), r) == old(State()).Resume(p, now)
    {
      var valid := Validate(p);
      if valid.Err? {
        return Err(BadPlaylist(valid.error));
      }
      var inOrder := ObserveTime(now);
      if !inOrder {
        return Err(TimeRegressed);
      }
      ReconcileCurrent(p);
      if currentIndex.None? {
        return Ok(State().Empty(p));
      }
      if pausedRemaining.Some? {
        deadline := Some(SaturatingAdd(now, pausedRemaining.value));
        pausedRemaining := None;
      }
      var until := if deadline.Some? then deadline.value else now;
      return Ok(Waiting(p.entries[currentIndex.value], currentIndex.value, SaturatingSub(until, now)));
    }

    method TakeSnapshot(p: Playlist, now: u64) returns (r: Result<Snapshot, RuntimeError>)
      ensures r == State().TakeSnapshot(p, now)
    {
      var valid := Validate(p);
      if valid.Err? {
        return Err(BadPlaylist(valid.error));
      }
      if lastNow.Some? && now < lastNow.value {
        return Err(TimeRegressed);
      }
      var remaining: Option<u64> := None;
      if pausedRemaining.None? && currentIndex.Some? && deadline.Some? {
        remaining := Some(SaturatingSub(deadline.value, now));
      }
      var snapshot := Snapshot(SNAPSHOT_SCHEMA_VERSION, p.id, seed, currentIndex, currentId,
                               remaining, pausedRemaining, history);
      var check := snapshot.Validation();
      if check.Err? {
        return Err(BadSnapshot(check.error));
      }
      return Ok(snapshot);
    }

    method Restore(snapshot: Snapshot, p: Playlist, now: u64) returns (r: Result<(), RuntimeError>)
      modifies this
      ensures (State(), r) == old(State()).Restore(snapshot, p, now)
    {
      var check := snapshot.Validation();
      if check.Err? {
        return Err(BadSnapshot(check.error));
      }
      var valid := Validate(p);
      if valid.Err? {
        return Err(BadPlaylist(valid.error));
      }
      if snapshot.playlistId != p.id {
        return Err(OtherPlaylist);
      }
      seed := snapshot.seed;
      history := snapshot.history;
      currentIndex := snapshot.currentIndex;
      currentId := snapshot.currentId;
      deadline := if snapshot.remaining.Some? then Some(SaturatingAdd(now, snapshot.remaining.value)) else None;
      pausedRemaining := snapshot.pausedRemaining;
      lastNow := Some(now);
      ReconcileCurrent(p);
      return Ok(());
    }

    method Select(p: Playlist, now: u64, unavailable: seq<string>, starting: bool) returns (r: Decision)
      modifies this
      ensures (State(), r) == old(State()).Select(p, now, unavailable, starting)
    {
      var exclusions := Exclusions(p.entries, unavailable, history, p.repeating);
      var selected := NextEligibleIndex(p, currentIndex, seed, exclusions);
      if selected.None? {
        currentIndex := None;
        currentId := None;
        deadline := None;
        pausedRemaining := None;
        return State().Empty(p);
      }
      var id := p.entries[selected.value];
      seed := WrappingInc(seed);
      currentIndex := selected;
      currentId := Some(id);
      var until := SaturatingAdd(now, DurationMs(p));
      deadline := Some(until);
      pausedRemaining := None;
      history := history + [id];
      ghost var grown := history;
      while |history| > MAX_RUNTIME_ENTRIES
        invariant |history| <= |grown| && history == grown[|grown| - |history|..]
        invariant |history| >= MAX_RUNTIME_ENTRIES || history == grown
        invariant State() == Runtime(selected, Some(id), Some(until), None, lastNow, seed, history)
        invariant lastNow == old(lastNow) && seed == WrappingInc(old(seed))
      {
        history := history[1..];
      }
      if starting {
        return Started(id, selected.value, until);
      }
      return Advanced(id, selected.value, until);
    }

    method ObserveTime(now: u64) returns (inOrder: bool)
      modifies this`lastNow
      ensures inOrder == !old(State()).Regresses(now)
      ensures lastNow == if inOrder then Some(now) else old(lastNow)
    {
      if lastNow.Some? && now < lastNow.value {
        return false;
      }
      lastNow := Some(now);
      return true;
    }

    method ReconcileCurrent(p: Playlist)
      modifies this
      ensures State() == old(State()).Reconcile(p)
    {
      if currentId.None? {
        currentIndex := None;
        return;
      }
      if currentIndex.Some? && currentIndex.value < |p.entries|
         && p.entries[currentIndex.value] == currentId.value {
        return;
      }
      currentIndex := IndexOf(p.entries, currentId.value);
      if currentIndex.None? {
        currentId := None;
        deadline := None;
        pausedRemaining := None;
      }
    }
  }
}
