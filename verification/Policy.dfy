/** Playback policies (crates/kwe-core/src/policy.rs). */
module Policies {
  import opened Common
  import opened RustStrings

  const MAX_RULES := 128
  const MAX_ID_BYTES := 128
  const DAY_MINUTES := 24 * 60
  const WEEK_MINUTES := 7 * 24 * 60

  datatype Action = KeepRunning | Mute | Pause | Stop

  function Precedence(a: Action): nat {
    match a
    case KeepRunning => 0
    case Mute => 1
    case Pause => 2
    case Stop => 3
  }

  datatype Trigger =
    | Fullscreen
    | Maximized
    | SessionLocked
    | Idle
    | OnBattery
    | PowerSaver
    | FocusedApplication(desktopId: string)
    | TimeWindow(days: byte, start: nat, end: nat)

  datatype Rule = Rule(id: string, trigger: Trigger, action: Action)

  datatype Policy = Policy(defaultAction: Action, rules: seq<Rule>)

  datatype Snapshot = Snapshot(
    fullscreen: bool,
    maximized: bool,
    sessionLocked: bool,
    idle: bool,
    onBattery: bool,
    powerSaver: bool,
    focusedApplication: Option<string>,
    weekday: Option<byte>,
    minute: Option<nat>)

  datatype Decision = Decision(action: Action, matchedRuleIds: seq<string>)

  datatype PolicyError = TooManyRules | RuleIdentity | ApplicationIdentity | WindowInvalid | FocusInvalid | ClockInvalid

  predicate ValidId(id: string) {
    id != "" && Utf8Length(id) <= MAX_ID_BYTES
  }

  predicate IsIdChar(c: char) {
    'a' <= c <= 'z' || 'A' <= c <= 'Z' || '0' <= c <= '9' || c == '.' || c == '_' || c == '-'
  }

  predicate ValidApplicationId(id: string) {
    ValidId(id) && forall i :: 0 <= i < |id| ==> IsIdChar(id[i])
  }

  predicate ValidWindow(t: Trigger) {
    t.TimeWindow? ==> 0 < t.days < 128 && t.start < DAY_MINUTES && t.end < DAY_MINUTES && t.start != t.end
  }

  /** The first fault of a rule, given the ids before it. */
  ghost function RuleFault(rules: seq<Rule>, i: nat): Option<PolicyError>
    requires i < |rules|
  {
    var r := rules[i];
    if !ValidId(r.id) || exists j :: 0 <= j < i && rules[j].id == r.id then Some(RuleIdentity)
    else if r.trigger.FocusedApplication? && !ValidApplicationId(r.trigger.desktopId) then Some(ApplicationIdentity)
    else if !ValidWindow(r.trigger) then Some(WindowInvalid)
    else None
  }

  ghost function FirstFault(rules: seq<Rule>, from: nat): Option<PolicyError>
    requires from <= |rules|
    decreases |rules| - from
  {
    if from == |rules| then None
    else if RuleFault(rules, from).Some? then RuleFault(rules, from)
    else FirstFault(rules, from + 1)
  }

  ghost function Validation(p: Policy): Option<PolicyError> {
    if |p.rules| > MAX_RULES then Some(TooManyRules) else FirstFault(p.rules, 0)
  }

  /** What validity means, whatever the order of the rules. */
  ghost predicate Valid(p: Policy) {
    && |p.rules| <= MAX_RULES
    && (forall r :: r in p.rules ==>
          && ValidId(r.id)
          && (r.trigger.FocusedApplication? ==> ValidApplicationId(r.trigger.desktopId))
          && ValidWindow(r.trigger))
    && forall i, j :: 0 <= i < j < |p.rules| ==> p.rules[i].id != p.rules[j].id
  }

  method Validate(p: Policy) returns (r: Option<PolicyError>)
    ensures r == Validation(p)
  {
    if |p.rules| > MAX_RULES {
      return Some(TooManyRules);
    }
    var ids: set<string> := {};
    for i := 0 to |p.rules|
      invariant ids == set j | 0 <= j < i :: p.rules[j].id
      invariant FirstFault(p.rules, 0) == FirstFault(p.rules, i)
    {
      var rule := p.rules[i];
      if !ValidId(rule.id) || rule.id in ids {
        return Some(RuleIdentity);
      }
      ids := ids + {rule.id};
      if rule.trigger.FocusedApplication? && !ValidApplicationId(rule.trigger.desktopId) {
        return Some(ApplicationIdentity);
      }
      if !ValidWindow(rule.trigger) {
        return Some(WindowInvalid);
      }
    }
    return None;
  }

  // ---- Matching ----

  function LowerChar(c: char): char {
    if 'A' <= c <= 'Z' then c + 32 as char else c
  }

  predicate SameIgnoringCase(a: string, b: string) {
    |a| == |b| && forall i :: 0 <= i < |a| ==> LowerChar(a[i]) == LowerChar(b[i])
  }

  /** `days & (1 << weekday) != 0`. */
  predicate DaySelected(days: byte, weekday: nat) {
    Bit(days, weekday) == 1
  }

  predicate RuleMatches(t: Trigger, s: Snapshot) {
    match t
    case Fullscreen => s.fullscreen
    case Maximized => s.maximized
    case SessionLocked => s.sessionLocked
    case Idle => s.idle
    case OnBattery => s.onBattery
    case PowerSaver => s.powerSaver
    case FocusedApplication(desktopId) =>
      s.focusedApplication.Some? && SameIgnoringCase(s.focusedApplication.value, desktopId)
    case TimeWindow(days, start, end) =>
      s.weekday.Some? && s.minute.Some? &&
      var weekday, minute := s.weekday.value, s.minute.value;
      if start < end then DaySelected(days, weekday) && start <= minute < end
      else (start <= minute && DaySelected(days, weekday)) || (minute < end && DaySelected(days, (weekday + 6) % 7))
  }

  predicate ValidClock(s: Snapshot) {
    && (s.weekday.Some? ==> s.weekday.value < 7)
    && (s.minute.Some? ==> s.minute.value < DAY_MINUTES)
    && s.weekday.Some? == s.minute.Some?
  }

  function Matched(rules: seq<Rule>, s: Snapshot): (r: seq<Rule>)
    ensures forall x :: x in r <==> x in rules && RuleMatches(x.trigger, s)
  {
    if rules == [] then []
    else
      var last := rules[|rules| - 1];
      var before := Matched(rules[..|rules| - 1], s);
      assert rules == rules[..|rules| - 1] + [last];
      if RuleMatches(last.trigger, s) then before + [last] else before
  }

  function Ids(rules: seq<Rule>): seq<string> {
    seq(|rules|, i requires 0 <= i < |rules| => rules[i].id)
  }

  /** The action among `rules` that takes precedence over all others. */
  ghost predicate Prevails(a: Action, rules: seq<Rule>) {
    (exists r :: r in rules && r.action == a) && forall r :: r in rules ==> Precedence(r.action) <= Precedence(a)
  }

  /** The default action when nothing matches, the prevailing one otherwise. */
  ghost predicate DecidesAs(p: Policy, s: Snapshot, a: Action) {
    if Matched(p.rules, s) == [] then a == p.defaultAction else Prevails(a, Matched(p.rules, s))
  }

  method Evaluate(p: Policy, s: Snapshot) returns (r: Result<Decision, PolicyError>)
    ensures Validation(p).Some? ==> r == Err(Validation(p).value)
    ensures Validation(p).None? && s.focusedApplication.Some? && !ValidApplicationId(s.focusedApplication.value) ==>
              r == Err(FocusInvalid)
    ensures Validation(p).None? && (s.focusedApplication.Some? ==> ValidApplicationId(s.focusedApplication.value)) ==>
              if !ValidClock(s) then r == Err(ClockInvalid)
              else
                && r.Ok?
                && r.value.matchedRuleIds == Ids(Matched(p.rules, s))
                && DecidesAs(p, s, r.value.action)
  {
    hide RuleMatches, FirstFault, ValidApplicationId, Matched, Prevails;
    var fault := Validate(p);
    if fault.Some? {
      return Err(fault.value);
    }
    if s.focusedApplication.Some? && !ValidApplicationId(s.focusedApplication.value) {
      return Err(FocusInvalid);
    }
    if !ValidClock(s) {
      return Err(ClockInvalid);
    }
    NoneMatched(p.rules, s);
    var action: Option<Action> := None;
    var ids: seq<string> := [];
    for i := 0 to |p.rules|
      invariant ids == Ids(Matched(p.rules[..i], s))
      invariant action.None? <==> Matched(p.rules[..i], s) == []
      invariant action.Some? ==> Prevails(action.value, Matched(p.rules[..i], s))
    {
      var rule := p.rules[i];
      MatchedNext(p.rules, i, s);
      if RuleMatches(rule.trigger, s) {
        ids := ids + [rule.id];
        PrevailsNext(Matched(p.rules[..i], s), rule, action);
        if action.None? || Precedence(rule.action) > Precedence(action.value) {
          action := Some(rule.action);
        }
      }
    }
    assert p.rules[..|p.rules|] == p.rules;
    return Ok(Decision(if action.Some? then action.value else p.defaultAction, ids));
  }

  lemma {:induction false} NoneMatched(rules: seq<Rule>, s: Snapshot)
    ensures Matched(rules[..0], s) == []
  {
  }

  lemma {:induction false} MatchedNext(rules: seq<Rule>, i: nat, s: Snapshot)
    requires i < |rules|
    ensures Matched(rules[..i + 1], s) ==
            if RuleMatches(rules[i].trigger, s) then Matched(rules[..i], s) + [rules[i]] else Matched(rules[..i], s)
  {
    assert rules[..i + 1][..i] == rules[..i];
  }

  /** One more matching rule takes over exactly when its action takes precedence. */
  lemma {:induction false} PrevailsNext(matched: seq<Rule>, rule: Rule, action: Option<Action>)
    requires if action.None? then matched == [] else Prevails(action.value, matched)
    ensures var takesOver := action.None? || Precedence(rule.action) > Precedence(action.value);
            Prevails(if takesOver then rule.action else action.value, matched + [rule])
  {
    assert rule in matched + [rule];
    if action.Some? {
      var r :| r in matched && r.action == action.value;
      assert r in matched + [rule];
    }
  }

  // ---- What the decision means ----

  lemma {:induction false} NoFaultMeans(rules: seq<Rule>, from: nat)
    requires from <= |rules|
    ensures FirstFault(rules, from).None? <==> forall i :: from <= i < |rules| ==> RuleFault(rules, i).None?
    decreases |rules| - from
  {
    if from < |rules| {
      NoFaultMeans(rules, from + 1);
    }
  }

  /** A policy passes validation exactly when it is valid, so the order of the rules plays no part. */
  lemma {:induction false} ValidationExact(p: Policy)
    ensures Validation(p).None? <==> Valid(p)
  {
    NoFaultMeans(p.rules, 0);
    if Validation(p).None? {
      forall i | 0 <= i < |p.rules|
        ensures RuleFault(p.rules, i).None?
      {
      }
      forall r | r in p.rules
        ensures ValidId(r.id) && ValidWindow(r.trigger)
        ensures r.trigger.FocusedApplication? ==> ValidApplicationId(r.trigger.desktopId)
      {
        var i :| 0 <= i < |p.rules| && p.rules[i] == r;
        assert RuleFault(p.rules, i).None?;
      }
      forall i, j | 0 <= i < j < |p.rules|
        ensures p.rules[i].id != p.rules[j].id
      {
        assert RuleFault(p.rules, j).None?;
      }
    }
    if Valid(p) {
      forall i | 0 <= i < |p.rules|
        ensures RuleFault(p.rules, i).None?
      {
        assert p.rules[i] in p.rules;
      }
    }
  }

  /** The limits of a valid policy. */
  lemma {:induction false} LimitsExact(p: Policy)
    ensures Valid(p) <==>
            && |p.rules| <= 128
            && (forall i, j :: 0 <= i < j < |p.rules| ==> p.rules[i].id != p.rules[j].id)
            && forall i :: 0 <= i < |p.rules| ==>
                 var rule := p.rules[i];
                 && rule.id != "" && Utf8Length(rule.id) <= 128
                 && match rule.trigger
                    case FocusedApplication(id) =>
                      id != "" && Utf8Length(id) <= 128 && forall k :: 0 <= k < |id| ==> IsIdChar(id[k])
                    case TimeWindow(days, start, end) => 0 < days < 128 && start < 1440 && end < 1440 && start != end
                    case _ => true
  {
    hide Utf8Length, IsIdChar;
    if Valid(p) {
      assert forall i :: 0 <= i < |p.rules| ==> p.rules[i] in p.rules;
    }
  }

  /** The characters an application may be named by, as ASCII codes. */
  lemma {:induction false} IdCharsExact(c: char)
    ensures var code := c as int;
            IsIdChar(c) <==> 48 <= code <= 57 || 65 <= code <= 90 || 97 <= code <= 122 || code in {45, 46, 95}
  {
  }

  ghost predicate BadIdentity(rules: seq<Rule>, i: nat)
    requires i < |rules|
  {
    var id := rules[i].id;
    id == "" || Utf8Length(id) > 128 || exists r :: r in rules[..i] && r.id == id
  }

  predicate BadApplication(t: Trigger) {
    && t.FocusedApplication?
    && (t.desktopId == "" || Utf8Length(t.desktopId) > 128 || exists c :: c in t.desktopId && !IsIdChar(c))
  }

  predicate BadWindow(t: Trigger) {
    t.TimeWindow? && (t.days == 0 || t.days >= 128 || t.start >= 1440 || t.end >= 1440 || t.start == t.end)
  }

  ghost predicate Faulty(rules: seq<Rule>, i: nat)
    requires i < |rules|
  {
    BadIdentity(rules, i) || BadApplication(rules[i].trigger) || BadWindow(rules[i].trigger)
  }

  /** The fault reported is the first one of the first faulty rule. */
  lemma {:induction false} FaultExact(p: Policy, i: nat)
    requires i < |p.rules|
    requires Faulty(p.rules, i) && forall j :: 0 <= j < i ==> !Faulty(p.rules, j)
    ensures Validation(p) ==
            Some(if |p.rules| > 128 then TooManyRules
                 else if BadIdentity(p.rules, i) then RuleIdentity
                 else if BadApplication(p.rules[i].trigger) then ApplicationIdentity
                 else WindowInvalid)
  {
    hide Utf8Length, IsIdChar;
    FaultFrom(p.rules, 0, i);
    RuleFaultIs(p.rules, i);
  }

  lemma {:induction false} FaultFrom(rules: seq<Rule>, from: nat, i: nat)
    requires from <= i < |rules|
    requires Faulty(rules, i) && forall j :: from <= j < i ==> !Faulty(rules, j)
    ensures FirstFault(rules, from) == RuleFault(rules, i)
    decreases i - from
  {
    hide BadIdentity, BadApplication, BadWindow, RuleFault;
    RuleFaultIs(rules, from);
    if from < i {
      assert !Faulty(rules, from);
      FaultFrom(rules, from + 1, i);
    }
  }

  lemma {:induction false} RuleFaultIs(rules: seq<Rule>, i: nat)
    requires i < |rules|
    ensures RuleFault(rules, i) ==
            if BadIdentity(rules, i) then Some(RuleIdentity)
            else if BadApplication(rules[i].trigger) then Some(ApplicationIdentity)
            else if BadWindow(rules[i].trigger) then Some(WindowInvalid)
            else None
  {
    hide Utf8Length, IsIdChar;
    assert forall r :: r in rules[..i] ==> exists j :: 0 <= j < i && rules[j] == r;
    assert forall j :: 0 <= j < i ==> rules[j] in rules[..i];
  }

  lemma {:induction false} MatchedUnordered(a: seq<Rule>, b: seq<Rule>, s: Snapshot)
    requires multiset(a) == multiset(b)
    ensures forall r :: r in Matched(a, s) <==> r in Matched(b, s)
    ensures Matched(a, s) == [] <==> Matched(b, s) == []
  {
    forall r
      ensures r in Matched(a, s) <==> r in Matched(b, s)
    {
      assert r in a <==> r in multiset(a);
      assert r in b <==> r in multiset(b);
    }
    if Matched(a, s) != [] {
      assert Matched(a, s)[0] in Matched(b, s);
    }
    if Matched(b, s) != [] {
      assert Matched(b, s)[0] in Matched(a, s);
    }
  }

  /** Reordering the rules of a policy changes neither what matches nor the action. */
  lemma {:induction false} OrderDoesNotMatter(p: Policy, q: Policy, s: Snapshot, x: Action, y: Action)
    requires multiset(p.rules) == multiset(q.rules) && p.defaultAction == q.defaultAction
    requires DecidesAs(p, s, x) && DecidesAs(q, s, y)
    ensures x == y
    ensures forall r :: r in Matched(p.rules, s) <==> r in Matched(q.rules, s)
  {
    MatchedUnordered(p.rules, q.rules, s);
  }

  /** Some rule of the policy matches and asks for the action. */
  ghost predicate Asked(p: Policy, s: Snapshot, a: Action) {
    exists r :: r in p.rules && RuleMatches(r.trigger, s) && r.action == a
  }

  /** The safest action asked for wins: stopping over pausing, pausing over muting, muting over going on. */
  lemma {:induction false} DecisionExact(p: Policy, s: Snapshot, a: Action)
    requires DecidesAs(p, s, a)
    ensures a == if Asked(p, s, Stop) then Stop
                 else if Asked(p, s, Pause) then Pause
                 else if Asked(p, s, Mute) then Mute
                 else if Asked(p, s, KeepRunning) then KeepRunning
                 else p.defaultAction
  {
    hide RuleMatches;
    var matched := Matched(p.rules, s);
    if matched == [] {
      assert forall r :: r in p.rules && RuleMatches(r.trigger, s) ==> r in matched;
    } else {
      forall b | Asked(p, s, b)
        ensures Precedence(b) <= Precedence(a)
      {
        var r :| r in p.rules && RuleMatches(r.trigger, s) && r.action == b;
        assert r in matched;
      }
      var r :| r in matched && r.action == a;
      assert Asked(p, s, a);
    }
  }

  const FLAG_TRIGGERS: seq<Trigger> := [Fullscreen, Maximized, SessionLocked, Idle, OnBattery, PowerSaver]

  function Flags(s: Snapshot): seq<bool> {
    [s.fullscreen, s.maximized, s.sessionLocked, s.idle, s.onBattery, s.powerSaver]
  }

  /** Each state trigger matches on its own flag and on no other. */
  lemma {:induction false} FlagsExact(s: Snapshot, k: nat)
    requires k < 6
    ensures RuleMatches(FLAG_TRIGGERS[k], s) <==> Flags(s)[k]
  {
    assert k in {0, 1, 2, 3, 4, 5};
  }

  /** The same character, or the two cases of one ASCII letter. */
  predicate SameLetter(a: char, b: char) {
    a == b || ('A' <= a <= 'Z' && b as int == a as int + 32) || ('A' <= b <= 'Z' && a as int == b as int + 32)
  }

  /** An application rule matches the focused application by name, up to ASCII case. */
  lemma {:induction false} FocusExact(desktopId: string, s: Snapshot)
    ensures RuleMatches(FocusedApplication(desktopId), s) <==>
            && s.focusedApplication.Some?
            && |s.focusedApplication.value| == |desktopId|
            && forall i :: 0 <= i < |desktopId| ==> SameLetter(s.focusedApplication.value[i], desktopId[i])
  {
    hide LowerChar, SameLetter;
    if s.focusedApplication.Some? && |s.focusedApplication.value| == |desktopId| {
      forall i | 0 <= i < |desktopId|
        ensures LowerChar(s.focusedApplication.value[i]) == LowerChar(desktopId[i]) <==>
                SameLetter(s.focusedApplication.value[i], desktopId[i])
      {
        LowerExact(s.focusedApplication.value[i], desktopId[i]);
      }
    }
  }

  lemma {:induction false} LowerExact(a: char, b: char)
    ensures LowerChar(a) == LowerChar(b) <==> SameLetter(a, b)
  {
  }

  /** The selected days make up the mask, Sunday's the lowest bit. */
  lemma {:induction false} DaysAreBits(days: byte)
    requires days < 128
    ensures var on := seq(7, d requires 0 <= d => if DaySelected(days, d) then 1 else 0);
            days == on[0] + 2 * on[1] + 4 * on[2] + 8 * on[3] + 16 * on[4] + 32 * on[5] + 64 * on[6]
  {
    hide Bit;
    HalvesDays(days);
  }

  lemma {:induction false} HalvesDays(days: byte)
    requires days < 128
    ensures days == Bit(days, 0) + 2 * Bit(days, 1) + 4 * Bit(days, 2) + 8 * Bit(days, 3) + 16 * Bit(days, 4)
                    + 32 * Bit(days, 5) + 64 * Bit(days, 6)
  {
    hide Bit;
    var b, c := days / 2, days / 2 / 2;
    var d, e := c / 2, c / 2 / 2;
    var f, g := e / 2, e / 2 / 2;
    Halves(days);
    Halves(b);
    Halves(c);
    Halves(d);
    Halves(e);
    Halves(f);
    Halves(g);
    assert Bit(days, 2) == Bit(b, 1) == Bit(c, 0) && Bit(days, 3) == Bit(b, 2) == Bit(c, 1) == Bit(d, 0);
    assert Bit(days, 4) == Bit(b, 3) == Bit(c, 2) == Bit(d, 1) == Bit(e, 0);
    assert Bit(days, 5) == Bit(b, 4) == Bit(c, 3) == Bit(d, 2) == Bit(e, 1) == Bit(f, 0);
    assert Bit(days, 6) == Bit(b, 5) == Bit(c, 4) == Bit(d, 3) == Bit(e, 2) == Bit(f, 1) == Bit(g, 0);
  }

  lemma {:induction false} Halves(n: nat)
    ensures n == Bit(n, 0) + 2 * (n / 2)
    ensures forall d :: 0 < d ==> Bit(n, d) == Bit(n / 2, d - 1)
  {
  }

  /** Minutes since the window last opened on day `d`, on the circle of the week. */
  function SinceOpening(weekday: nat, minute: nat, d: nat, start: nat): nat
    requires d < 7 && start < DAY_MINUTES
  {
    (weekday * DAY_MINUTES + minute + WEEK_MINUTES - (d * DAY_MINUTES + start)) % WEEK_MINUTES
  }

  function Duration(start: nat, end: nat): nat
    requires start < DAY_MINUTES
  {
    (end + DAY_MINUTES - start) % DAY_MINUTES
  }

  /** Within one selected day, the branch of the code for windows that do and do not pass midnight. */
  lemma {:induction false} WindowOnDay(weekday: nat, minute: nat, d: nat, start: nat, end: nat)
    requires weekday < 7 && d < 7 && minute < DAY_MINUTES && start < DAY_MINUTES && end < DAY_MINUTES && start != end
    ensures SinceOpening(weekday, minute, d, start) < Duration(start, end) <==>
            if start < end then d == weekday && start <= minute < end
            else (d == weekday && start <= minute) || (d == (weekday + 6) % 7 && minute < end)
  {
    SinceOpeningIs(weekday, minute, d, start);
    DurationIs(start, end);
  }

  lemma {:induction false} SinceOpeningIs(weekday: nat, minute: nat, d: nat, start: nat)
    requires weekday < 7 && d < 7 && minute < DAY_MINUTES && start < DAY_MINUTES
    ensures var gap := (weekday - d) * DAY_MINUTES + (minute - start);
            SinceOpening(weekday, minute, d, start) == if gap >= 0 then gap else gap + WEEK_MINUTES
  {
  }

  lemma {:induction false} DurationIs(start: nat, end: nat)
    requires start < DAY_MINUTES && end < DAY_MINUTES
    ensures Duration(start, end) == if start <= end then end - start else end + DAY_MINUTES - start
  {
  }

  /**
   * A valid time window matches exactly when the current minute of the week lies fewer than
   * (end - start) mod 1440 minutes after the start on some selected day, around midnight and around
   * the end of the week alike.
   */
  lemma {:induction false} WindowIsWeekArithmetic(t: Trigger, s: Snapshot)
    requires t.TimeWindow? && ValidWindow(t) && ValidClock(s)
    ensures RuleMatches(t, s) <==>
            s.weekday.Some? && exists d: nat ::
              d < 7 && DaySelected(t.days, d) &&
              SinceOpening(s.weekday.value, s.minute.value, d, t.start) < Duration(t.start, t.end)
  {
    if s.weekday.Some? {
      var weekday, minute := s.weekday.value, s.minute.value;
      forall d: nat | d < 7
        ensures SinceOpening(weekday, minute, d, t.start) < Duration(t.start, t.end) <==>
                if t.start < t.end then d == weekday && t.start <= minute < t.end
                else (d == weekday && t.start <= minute) || (d == (weekday + 6) % 7 && minute < t.end)
      {
        WindowOnDay(weekday, minute, d, t.start, t.end);
      }
      assert weekday < 7 && (weekday + 6) % 7 < 7;
      assert DaySelected(t.days, weekday) || !DaySelected(t.days, weekday);
    }
  }
}
