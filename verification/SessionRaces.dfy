/** One session, step by step: its messages and the sweep over the list. */
module SessionRaces {
  import opened Options
  import opened Authenticate

  // The sweep holds the mutex of the list during its walk; a message holds it only
  // while it looks the session up, and works on the session afterwards. Each look at
  // the fields and each write of a field is a step.

  /** The message: none; session looked up; challenge read, reply being verified;
      state written, time not yet; or about to log off, and the same again. */
  datatype Message = Idle | Found | Judging | Writing(verified: bool) | Leaving | Left

  /** The sweep: elsewhere; on its way, with the time it goes by; come to the
      session; found it due; or past that. */
  datatype Walk = Away | Begun(now: int) | Come(now: int) | Finds | Past

  /** `time` is the time that the message goes by. */
  datatype Status = Status(
    state: State, wakeTime: int, listed: bool, message: Message, time: int, walk: Walk, clock: int)

  datatype Action =
    | Passes(to: int)
    | LooksUp
    | Reads(logoff: bool, now: int)
    | WritesVerdict(verified: bool)
    | WritesTime
    | WritesLogoff
    | WritesLogoffTime
    | Begins
    | Comes
    | Looks
    | Marks
    | Tests

  predicate IsDue(s: Status, now: int) {
    s.wakeTime != 0 && s.wakeTime <= now && s.state != Rejected
  }

  predicate Enabled(s: Status, a: Action) {
    match a
    case Passes(to) => s.clock <= to
    case LooksUp => s.message == Idle && s.listed && (s.walk == Away || s.walk.Begun?)
    case Reads(_, now) => s.message == Found && s.time <= now <= s.clock
    case WritesVerdict(_) => s.message == Judging
    case WritesTime => s.message.Writing?
    case WritesLogoff => s.message == Leaving
    case WritesLogoffTime => s.message == Left
    case Begins => s.walk == Away
    case Comes => s.walk.Begun? && s.listed
    case Looks => s.walk.Come?
    case Marks => s.walk == Finds
    case Tests => s.walk == Past
  }

  function After(s: Status, a: Action): Status
    requires Enabled(s, a)
  {
    match a
    case Passes(to) => s.(clock := to)
    case LooksUp => s.(message := Found, time := s.clock)
    case Reads(logoff, now) =>
      if s.state == Challenge then s.(message := Judging, time := now)
      else if s.state == Accepted && logoff then s.(message := Leaving, time := now)
      else s.(message := Idle)
    case WritesVerdict(verified) => s.(state := Judged(verified), message := Writing(verified))
    case WritesTime => s.(wakeTime := JudgedUntil(s.message.verified, s.time), message := Idle)
    case WritesLogoff => s.(state := Disconnect, message := Left)
    case WritesLogoffTime => s.(wakeTime := s.time + 5, message := Idle)
    case Begins => s.(walk := Begun(s.clock))
    case Comes => s.(walk := Come(s.walk.now))
    case Looks => s.(walk := if IsDue(s, s.walk.now) then Finds else Past)
    case Marks => s.(state := TimedOut, walk := Past)
    case Tests => s.(listed := s.listed && !IsEnded(s.state), walk := Away)
  }

  /** At which points of a message the sweep may mark the session, and at which it
      may test and free it. A mutex held by the message leaves out the points
      at which it is held; the program leaves out none. */
  datatype Rules = Rules(marks: set<Message>, tests: set<Message>)

  const EVERYWHERE: set<Message> := {Idle, Found, Judging, Writing(true), Writing(false), Leaving, Left}

  predicate Allowed(rules: Rules, s: Status, a: Action) {
    Enabled(s, a) && (a == Marks ==> s.message in rules.marks) && (a == Tests ==> s.message in rules.tests)
  }

  /** Where a run of steps ends, if each of them may be taken. */
  function Outcome(rules: Rules, s: Status, run: seq<Action>): Option<Status>
    decreases run
  {
    if run == [] then Some(s)
    else if Allowed(rules, s, run[0]) then Outcome(rules, After(s, run[0]), run[1..]) else None
  }

  predicate Leads(rules: Rules, s: Status, run: seq<Action>, t: Status) {
    Outcome(rules, s, run) == Some(t)
  }

  /** A session as it is put on the list. */
  predicate Initial(s: Status) {
    && s.state == Challenge && s.listed && s.message == Idle && s.walk == Away
    && 0 <= s.clock && 0 < s.wakeTime
  }

  // ----- what every run keeps -----

  /** While the sweep has found the session due, the clock has come to `when`. */
  predicate DueBy(s: Status, when: int) {
    s.walk == Finds ==> when <= s.clock
  }

  /** A session still in `state` unless it was marked, at a point where that may
      be, once the clock had come to `when`. */
  predicate StillOr(rules: Rules, s: Status, state: State, when: int) {
    s.state == state || (s.state == TimedOut && s.message in rules.marks && when <= s.clock)
  }

  /** `f` is the session as it was put on the list. */
  predicate Sound(rules: Rules, f: Status, s: Status) {
    && f.clock <= s.clock && (s.walk.Begun? || s.walk.Come? ==> s.walk.now <= s.clock)
    && (s.message != Idle ==> f.clock <= s.time <= s.clock)
    && (s.state == Challenge ==>
      s.wakeTime == f.wakeTime && DueBy(s, f.wakeTime) && s.message in {Idle, Found, Judging})
    && (s.message in {Judging, Writing(true)} ==> s.wakeTime == f.wakeTime && DueBy(s, f.wakeTime))
    && (s.message == Judging ==> StillOr(rules, s, Challenge, f.wakeTime))
    && (s.message == Writing(true) ==> StillOr(rules, s, Accepted, f.wakeTime))
    && (s.state == Accepted && s.message != Writing(true) ==>
      && s.message in {Idle, Found, Leaving} && s.wakeTime >= f.clock + 30 * 60
      && (s.message != Idle ==> DueBy(s, f.clock + 30 * 60)))
    && (s.message == Leaving ==>
      && s.wakeTime >= f.clock + 30 * 60 && DueBy(s, f.clock + 30 * 60)
      && StillOr(rules, s, Accepted, f.clock + 30 * 60))
  }

  lemma StepKeepsSound(rules: Rules, f: Status, s: Status, a: Action)
    requires Sound(rules, f, s) && Allowed(rules, s, a)
    ensures Sound(rules, f, After(s, a))
  {
  }

  lemma {:induction false} RunKeepsSound(rules: Rules, f: Status, s: Status, run: seq<Action>, t: Status)
    requires Sound(rules, f, s) && Leads(rules, s, run, t)
    ensures Sound(rules, f, t)
    decreases run
  {
    if run != [] {
      StepKeepsSound(rules, f, s, run[0]);
      RunKeepsSound(rules, f, After(s, run[0]), run[1..], t);
    }
  }

  // ----- putting runs together -----

  lemma {:induction false} LeadsOn(rules: Rules, s: Status, run: seq<Action>, t: Status, a: Action)
    requires Leads(rules, s, run, t) && Allowed(rules, t, a)
    ensures Leads(rules, s, run + [a], After(t, a))
    decreases run
  {
    if run == [] {
      assert run + [a] == [a] && [a][1..] == [];
    } else {
      assert (run + [a])[0] == run[0] && (run + [a])[1..] == run[1..] + [a];
      LeadsOn(rules, After(s, run[0]), run[1..], t, a);
    }
  }

  /** Some run of steps leads there. */
  ghost predicate Reaches(rules: Rules, s: Status, t: Status) {
    exists run :: Leads(rules, s, run, t)
  }

  lemma Stays(rules: Rules, s: Status)
    ensures Reaches(rules, s, s)
  {
    assert Leads(rules, s, [], s);
  }

  lemma Then(rules: Rules, s: Status, t: Status, a: Action) returns (next: Status)
    requires Reaches(rules, s, t) && Allowed(rules, t, a)
    ensures next == After(t, a) && Reaches(rules, s, next)
  {
    next := After(t, a);
    var run :| Leads(rules, s, run, t);
    LeadsOn(rules, s, run, t, a);
  }

  /** A message reads the challenge. */
  lemma ReadsChallenge(rules: Rules, s: Status) returns (t: Status)
    requires Initial(s)
    ensures Reaches(rules, s, t) && t == s.(message := Judging, time := s.clock)
  {
    Stays(rules, s);
    t := Then(rules, s, s, LooksUp);
    t := Then(rules, s, t, Reads(false, s.clock));
  }

  /** A reply is dealt with while the sweep is away. */
  lemma MessageAlone(rules: Rules, s: Status, verified: bool) returns (t: Status)
    requires Initial(s)
    ensures Reaches(rules, s, t) && t == s.(
      state := Judged(verified), wakeTime := JudgedUntil(verified, s.clock), time := s.clock)
  {
    t := ReadsChallenge(rules, s);
    t := Then(rules, s, t, WritesVerdict(verified));
    t := Then(rules, s, t, WritesTime);
  }

  /** The sweep comes to the session at some time. */
  lemma SweepLooks(rules: Rules, s: Status, t0: Status, now: int) returns (t: Status)
    requires Reaches(rules, s, t0) && t0.walk == Away && t0.listed && t0.clock <= now
    ensures Reaches(rules, s, t)
    ensures t == t0.(clock := now, walk := if IsDue(t0, now) then Finds else Past)
  {
    t := Then(rules, s, t0, Passes(now));
    t := Then(rules, s, t, Begins);
    t := Then(rules, s, t, Comes);
    t := Then(rules, s, t, Looks);
  }

  lemma SweepMarks(rules: Rules, s: Status, t0: Status, now: int) returns (t: Status)
    requires Reaches(rules, s, t0) && t0.walk == Away && t0.listed && t0.clock <= now
    requires IsDue(t0, now) && t0.message in rules.marks
    ensures Reaches(rules, s, t) && t == t0.(clock := now, walk := Past, state := TimedOut)
  {
    t := SweepLooks(rules, s, t0, now);
    t := Then(rules, s, t, Marks);
  }

  /** The sweep over a session that no message works on takes it down exactly when
      it has ended or its time is up, and leaves it as it is otherwise. */
  lemma SweepAlone(rules: Rules, s: Status) returns (t: Status)
    requires s.listed && s.message == Idle && s.walk == Away && Idle in rules.marks && Idle in rules.tests
    ensures Reaches(rules, s, t) && t.walk == Away && t.clock == s.clock && t.wakeTime == s.wakeTime
    ensures t.listed <==> !IsEnded(s.state) && !(s.wakeTime != 0 && s.wakeTime <= s.clock)
    ensures if t.listed then t.state == s.state else IsEnded(t.state)
  {
    Stays(rules, s);
    if IsDue(s, s.clock) {
      t := SweepMarks(rules, s, s, s.clock);
    } else {
      t := SweepLooks(rules, s, s, s.clock);
    }
    t := Then(rules, s, t, Tests);
  }

  function Later(a: int, b: int): int {
    if a < b then b else a
  }

  // ----- ended sessions that go on -----

  predicate Revives(s: Status, a: Action) {
    Enabled(s, a) && IsEnded(s.state) && !IsEnded(After(s, a).state)
  }

  /** Under some rules, some run in which an ended session goes on by `limit`. */
  ghost predicate CanRevive(rules: Rules, s: Status, limit: int) {
    exists t, a :: Reaches(rules, s, t) && t.clock <= limit && Revives(t, a)
  }

  /** The sweep comes while a reply is verified, and finds the challenge overdue. */
  lemma MarkedMeanwhile(rules: Rules, s: Status) returns (t: Status)
    requires Initial(s) && Judging in rules.marks
    ensures Reaches(rules, s, t)
    ensures t == s.(state := TimedOut, message := Judging, time := s.clock, walk := Past,
                    clock := Later(s.wakeTime, s.clock))
  {
    t := ReadsChallenge(rules, s);
    t := SweepMarks(rules, s, t, Later(s.wakeTime, s.clock));
  }

  /** An ended session can go on exactly where the sweep may mark it while a reply
      is being verified, from the end of its time to answer on, and no earlier. */
  lemma RevivesExactly(rules: Rules, s: Status, limit: int)
    requires Initial(s)
    ensures CanRevive(rules, s, limit) <==> Judging in rules.marks && Later(s.wakeTime, s.clock) <= limit
  {
    if Judging in rules.marks && Later(s.wakeTime, s.clock) <= limit {
      var t := MarkedMeanwhile(rules, s);
      assert Revives(t, WritesVerdict(true));
    }
    forall t, a | Reaches(rules, s, t) && t.clock <= limit && Revives(t, a)
      ensures Judging in rules.marks && Later(s.wakeTime, s.clock) <= limit
    {
      var run :| Leads(rules, s, run, t);
      RunKeepsSound(rules, s, s, run, t);
    }
  }

  /** As the program is, the verdict may be written over the mark, and the session
      stays on the list, accepted. */
  lemma Revived(s: Status) returns (t: Status)
    requires Initial(s)
    ensures Reaches(Rules(EVERYWHERE, EVERYWHERE), s, t)
    ensures t.state == Accepted && t.listed && t.message == Idle && t.walk == Away
  {
    var rules := Rules(EVERYWHERE, EVERYWHERE);
    t := MarkedMeanwhile(rules, s);
    t := Then(rules, s, t, WritesVerdict(true));
    t := Then(rules, s, t, WritesTime);
    t := Then(rules, s, t, Tests);
  }

  // ----- sessions freed in use -----

  /** The sweep is about to take the session down while a message works on it. */
  predicate FreesInUse(s: Status) {
    s.walk == Past && s.listed && s.message != Idle && IsEnded(s.state)
  }

  /** Under some rules, some run that frees the session in use by `limit`. */
  ghost predicate CanFreeInUse(rules: Rules, s: Status, limit: int) {
    exists t :: Reaches(rules, s, t) && t.clock <= limit && FreesInUse(t) && t.message in rules.tests
  }

  /** Points of a message at which the session may have ended, either of itself or
      because the sweep may mark it there. */
  predicate Exposed(rules: Rules, m: Message) {
    m != Idle && m in rules.tests && (m in {Judging, Writing(true), Leaving} ==> m in rules.marks)
  }

  /** The earliest that a session can have ended at a point of a message. */
  function Earliest(s: Status, m: Message): int {
    match m
    case Judging => Later(s.wakeTime, s.clock)
    case Writing(verified) => if verified then Later(s.wakeTime, s.clock) else s.clock
    case Leaving => s.clock + 30 * 60
    case _ => s.clock
  }

  /** A user whose reply was good comes again. */
  lemma ComesAgain(rules: Rules, s: Status, verified: bool) returns (t: Status)
    requires Initial(s)
    ensures Reaches(rules, s, t) && t == s.(
      state := Judged(verified), wakeTime := JudgedUntil(verified, s.clock), time := s.clock, message := Found)
  {
    t := MessageAlone(rules, s, verified);
    t := Then(rules, s, t, LooksUp);
  }

  lemma LogsOff(rules: Rules, s: Status) returns (t: Status)
    requires Initial(s)
    ensures Reaches(rules, s, t) && t == s.(
      state := Accepted, wakeTime := s.clock + 30 * 60, time := s.clock, message := Leaving)
  {
    t := ComesAgain(rules, s, true);
    t := Then(rules, s, t, Reads(true, s.clock));
  }

  /** Every exposed point can be met, and as early as that. */
  lemma FreedAt(rules: Rules, s: Status, m: Message) returns (t: Status)
    requires Initial(s) && Exposed(rules, m)
    ensures Reaches(rules, s, t) && FreesInUse(t) && t.message == m && t.clock == Earliest(s, m)
  {
    match m
    case Found =>
      t := ComesAgain(rules, s, false);
      t := SweepLooks(rules, s, t, s.clock);
    case Judging => t := MarkedMeanwhile(rules, s);
    case Writing(verified) =>
      t := ReadsChallenge(rules, s);
      t := Then(rules, s, t, WritesVerdict(verified));
      if verified {
        t := SweepMarks(rules, s, t, Later(s.wakeTime, s.clock));
      } else {
        t := SweepLooks(rules, s, t, s.clock);
      }
    case Leaving =>
      t := LogsOff(rules, s);
      t := SweepMarks(rules, s, t, s.clock + 30 * 60);
    case Left =>
      t := LogsOff(rules, s);
      t := Then(rules, s, t, WritesLogoff);
      t := SweepLooks(rules, s, t, s.clock);
  }

  /** No point but an exposed one, and none earlier. */
  lemma OnlyExposed(rules: Rules, s: Status, t: Status)
    requires Initial(s) && Reaches(rules, s, t) && FreesInUse(t) && t.message in rules.tests
    ensures Exposed(rules, t.message) && Earliest(s, t.message) <= t.clock
  {
    var run :| Leads(rules, s, run, t);
    RunKeepsSound(rules, s, s, run, t);
  }

  /** A session can be freed in use by some time exactly if a point of a message
      is exposed, and can be met that early. */
  lemma FreesExactly(rules: Rules, s: Status, limit: int)
    requires Initial(s)
    ensures CanFreeInUse(rules, s, limit) <==> exists m :: Exposed(rules, m) && Earliest(s, m) <= limit
  {
    if m :| Exposed(rules, m) && Earliest(s, m) <= limit {
      var t := FreedAt(rules, s, m);
      assert Reaches(rules, s, t) && t.clock <= limit;
    }
    forall t | Reaches(rules, s, t) && t.clock <= limit && FreesInUse(t) && t.message in rules.tests
      ensures Exposed(rules, t.message) && Earliest(s, t.message) <= limit
    {
      OnlyExposed(rules, s, t);
    }
  }

  /** If a mutex keeps the sweep from marking and testing except at some points of
      a message, no session is ever freed in use exactly if those are points
      where there is no message. */
  lemma MutexExactly(points: set<Message>, s: Status)
    requires Initial(s)
    ensures (forall limit :: !CanFreeInUse(Rules(points, points), s, limit)) <==> points <= {Idle}
  {
    var rules := Rules(points, points);
    if !(points <= {Idle}) {
      var m :| m in points && m != Idle;
      FreesExactly(rules, s, Earliest(s, m));
      assert CanFreeInUse(rules, s, Earliest(s, m));
    } else {
      forall limit ensures !CanFreeInUse(rules, s, limit) {
        FreesExactly(rules, s, limit);
      }
    }
  }

  /** As the program is, any session can be taken down while its rejection is being
      written: the sweep tests the state before the message writes the time. */
  lemma TakenDownInUse(s: Status) returns (t: Status)
    requires Initial(s)
    ensures Reaches(Rules(EVERYWHERE, EVERYWHERE), s, t)
    ensures !t.listed && t.message == Writing(false) && t.state == Rejected && t.clock == s.clock
  {
    var rules := Rules(EVERYWHERE, EVERYWHERE);
    t := ReadsChallenge(rules, s);
    t := Then(rules, s, t, WritesVerdict(false));
    t := SweepLooks(rules, s, t, s.clock);
    t := Then(rules, s, t, Tests);
  }
}
