/** The bounded queue among threads. Everything between taking the mutex and
    letting it go, or waiting, is one step; threads interleave freely. */
module QueueProtocol {
  import opened BoundedQueues
  import opened Options
  import opened Sets

  /** Where a thread stands: away; at the mutex for the first time in a call;
      in the wait set; back at the mutex after a wake-up; or after a time-out. */
  datatype Place = Away | Arrived | Asleep | Woken | Expired

  /** `heeds` tells whether the consumers of the queue mind an abort; those of
      the logging and the query queue do not. */
  datatype State<T> = State(
    room: nat, producers: map<int, Place>, consumers: map<int, Place>,
    items: seq<T>, put: seq<T>, gone: seq<T>, heeds: bool, abort: bool)

  /** A step. `woken` are the threads that a signal, if one is due, lets go. */
  datatype Action<T> =
    | ProducerCalls(id: int)
    | ProducerTries(id: int, item: T, woken: set<int>)
    | ProducerStirs(id: int)
    | ConsumerCalls(id: int)
    | ConsumerTries(id: int, woken: set<int>)
    | ConsumerStirs(id: int)
    | ConsumerExpires(id: int)
    | ConsumerLeaves(id: int)
    | Clear(woken: set<int>)
    | Abort

  function Sleepers(threads: map<int, Place>): set<int> {
    set id | id in threads && threads[id] == Asleep
  }

  function Wake(threads: map<int, Place>, woken: set<int>): map<int, Place> {
    map id | id in threads :: if id in woken then Woken else threads[id]
  }

  predicate At(threads: map<int, Place>, id: int, place: Place) {
    id in threads && threads[id] == place
  }

  /** A signal lets at least one sleeper go, if there is one; without a signal
      none goes. */
  predicate Lets(signal: bool, sleepers: set<int>, woken: set<int>) {
    woken <= sleepers && (signal && sleepers != {} ==> woken != {}) && (!signal ==> woken == {})
  }

  /** A woken consumer goes away with nothing. */
  predicate Quits(s: State) {
    s.heeds && s.abort
  }

  predicate MayTry(threads: map<int, Place>, id: int, quits: bool) {
    At(threads, id, Arrived) || (At(threads, id, Woken) && !quits)
  }

  predicate Enabled<T>(s: State<T>, a: Action<T>) {
    match a
    case ProducerCalls(p) => At(s.producers, p, Away)
    case ProducerTries(p, x, woken) =>
      MayTry(s.producers, p, false) &&
      if |s.items| == s.room then woken == {}
      else Lets(Owed(s.room, |s.items|, |s.items| + 1).notEmpty, Sleepers(s.consumers), woken)
    case ProducerStirs(p) => At(s.producers, p, Asleep)
    case ConsumerCalls(c) => At(s.consumers, c, Away)
    case ConsumerTries(c, woken) =>
      MayTry(s.consumers, c, Quits(s)) &&
      if s.items == [] then woken == {}
      else Lets(Owed(s.room, |s.items|, |s.items| - 1).notFull, Sleepers(s.producers), woken)
    case ConsumerStirs(c) => At(s.consumers, c, Asleep)
    case ConsumerExpires(c) => At(s.consumers, c, Asleep)
    case ConsumerLeaves(c) => At(s.consumers, c, Expired) || (At(s.consumers, c, Woken) && Quits(s))
    case Clear(woken) => Lets(Owed(s.room, |s.items|, 0).notFull, Sleepers(s.producers), woken)
    case Abort => true
  }

  function After<T>(s: State<T>, a: Action<T>): State<T>
    requires Enabled(s, a)
  {
    match a
    case ProducerCalls(p) => s.(producers := s.producers[p := Arrived])
    case ProducerTries(p, x, woken) =>
      if |s.items| == s.room then s.(producers := s.producers[p := Asleep])
      else s.(producers := s.producers[p := Away], consumers := Wake(s.consumers, woken),
              items := s.items + [x], put := s.put + [x])
    case ProducerStirs(p) => s.(producers := s.producers[p := Woken])
    case ConsumerCalls(c) => s.(consumers := s.consumers[c := Arrived])
    case ConsumerTries(c, woken) =>
      if s.items == [] then s.(consumers := s.consumers[c := Asleep])
      else s.(consumers := s.consumers[c := Away], producers := Wake(s.producers, woken),
              items := s.items[1..], gone := s.gone + [s.items[0]])
    case ConsumerStirs(c) => s.(consumers := s.consumers[c := Woken])
    case ConsumerExpires(c) => s.(consumers := s.consumers[c := Expired])
    case ConsumerLeaves(c) => s.(consumers := s.consumers[c := Away])
    case Clear(woken) => s.(producers := Wake(s.producers, woken), items := [], gone := s.gone + s.items)
    case Abort => s.(abort := true)
  }

  predicate AllAway(threads: map<int, Place>) {
    forall id :: id in threads ==> threads[id] == Away
  }

  predicate Initial<T>(s: State<T>) {
    && s.items == [] && s.put == [] && s.gone == [] && !s.abort && s.room > 0
    && AllAway(s.producers) && AllAway(s.consumers)
  }

  /** Where a run of steps ends, if each of them can be taken. */
  function Outcome<T>(s: State<T>, run: seq<Action<T>>): Option<State<T>>
    decreases run
  {
    if run == [] then Some(s) else if Enabled(s, run[0]) then Outcome(After(s, run[0]), run[1..]) else None
  }

  predicate Leads<T(==)>(s: State<T>, run: seq<Action<T>>, t: State<T>) {
    Outcome(s, run) == Some(t)
  }

  lemma {:induction false} LeadsOn<T>(s: State<T>, a: seq<Action<T>>, t: State<T>, b: seq<Action<T>>, u: State<T>)
    requires Leads(s, a, t) && Leads(t, b, u)
    ensures Leads(s, a + b, u)
    decreases a
  {
    if a == [] {
      assert a + b == b;
    } else {
      LeadsOn(After(s, a[0]), a[1..], t, b, u);
      assert (a + b)[0] == a[0] && (a + b)[1..] == a[1..] + b;
    }
  }

  // ----- what every run keeps -----

  /** Somebody among the threads is not in the wait set. */
  predicate SomeUp(threads: map<int, Place>) {
    exists id :: id in threads && threads[id] != Asleep
  }

  predicate Sound<T(==)>(s: State<T>) {
    && 0 < s.room && |s.items| <= s.room
    && s.put == s.gone + s.items
    && (s.items != [] && s.consumers != map[] ==> SomeUp(s.consumers))
    && (|s.items| < s.room && s.producers != map[] ==> SomeUp(s.producers))
  }

  lemma SomeAsleep(threads: map<int, Place>)
    requires threads != map[] && !SomeUp(threads)
    ensures Sleepers(threads) != {}
  {
    var id := Anyone(threads.Keys);
    assert id in Sleepers(threads);
  }

  lemma UpAfterWake(threads: map<int, Place>, signal: bool, woken: set<int>)
    requires Lets(signal, Sleepers(threads), woken) && threads != map[] && (signal || SomeUp(threads))
    ensures SomeUp(Wake(threads, woken))
  {
    if SomeUp(threads) {
      var id :| id in threads && threads[id] != Asleep;
      assert Wake(threads, woken)[id] != Asleep;
    } else {
      SomeAsleep(threads);
      var id := Anyone(woken);
      assert Wake(threads, woken)[id] == Woken;
    }
  }

  lemma UpAfterMove(threads: map<int, Place>, id: int, place: Place)
    requires place != Asleep
    ensures SomeUp(threads[id := place])
  {
    assert threads[id := place][id] == place;
  }

  lemma StepKeepsSound<T>(s: State<T>, a: Action<T>)
    requires Sound(s) && Enabled(s, a)
    ensures Sound(After(s, a))
  {
    match a
    case ProducerTries(p, x, woken) =>
      if |s.items| < s.room {
        UpAfterMove(s.producers, p, Away);
        if s.consumers != map[] {
          UpAfterWake(s.consumers, s.items == [], woken);
        }
      }
    case ConsumerTries(c, woken) =>
      if s.items != [] {
        UpAfterMove(s.consumers, c, Away);
        if s.producers != map[] {
          UpAfterWake(s.producers, |s.items| == s.room, woken);
        }
        assert s.gone + s.items == s.gone + [s.items[0]] + s.items[1..];
      }
    case Clear(woken) =>
      if s.producers != map[] {
        UpAfterWake(s.producers, |s.items| == s.room, woken);
      }
    case ProducerCalls(p) => UpAfterMove(s.producers, p, Arrived);
    case ProducerStirs(p) => UpAfterMove(s.producers, p, Woken);
    case ConsumerCalls(c) => UpAfterMove(s.consumers, c, Arrived);
    case ConsumerStirs(c) => UpAfterMove(s.consumers, c, Woken);
    case ConsumerExpires(c) => UpAfterMove(s.consumers, c, Expired);
    case ConsumerLeaves(c) => UpAfterMove(s.consumers, c, Away);
    case Abort =>
  }

  lemma {:induction false} RunKeepsSound<T>(s: State<T>, run: seq<Action<T>>, t: State<T>)
    requires Sound(s) && Leads(s, run, t)
    ensures Sound(t)
    decreases run
  {
    if run != [] {
      StepKeepsSound(s, run[0]);
      RunKeepsSound(After(s, run[0]), run[1..], t);
    }
  }

  /** Over every interleaving: what was put in has gone out in the same order,
      up to what is still there; the queue never overfills; items never lie with
      every consumer asleep, nor room with every producer asleep; and so not
      every thread sleeps. */
  lemma EveryRun<T>(s: State<T>, run: seq<Action<T>>, t: State<T>)
    requires Initial(s) && Leads(s, run, t)
    ensures t.put == t.gone + t.items && |t.items| <= t.room
    ensures t.items != [] && t.consumers != map[] ==> SomeUp(t.consumers)
    ensures |t.items| < t.room && t.producers != map[] ==> SomeUp(t.producers)
    ensures t.producers != map[] && t.consumers != map[] ==> SomeUp(t.producers) || SomeUp(t.consumers)
  {
    InitialIsSound(s);
    RunKeepsSound(s, run, t);
  }

  // ----- signals on transitions only -----

  /** Somebody in the call will look at the queue of its own accord. */
  predicate SomeTrying(threads: map<int, Place>) {
    exists id :: id in threads && (threads[id] == Arrived || threads[id] == Woken)
  }

  /** Items lie in the queue, a consumer sleeps, and no consumer is about to look. */
  predicate Stalled(s: State) {
    s.items != [] && Sleepers(s.consumers) != {} && !SomeTrying(s.consumers)
  }

  /** There is room in the queue, a producer sleeps, and no producer is about to look. */
  predicate Stuck(s: State) {
    |s.items| < s.room && Sleepers(s.producers) != {} && !SomeTrying(s.producers)
  }

  lemma TryingAfterWake(threads: map<int, Place>, woken: set<int>)
    requires Lets(true, Sleepers(threads), woken)
    ensures Sleepers(Wake(threads, woken)) != {} ==> SomeTrying(Wake(threads, woken))
  {
    var now := Wake(threads, woken);
    if Sleepers(now) != {} {
      var id := Anyone(Sleepers(now));
      assert id in Sleepers(threads);
      var w := Anyone(woken);
      assert now[w] == Woken;
    }
  }

  lemma TryingAfterCall(threads: map<int, Place>, id: int, place: Place)
    requires place == Arrived || place == Woken
    ensures SomeTrying(threads[id := place])
  {
    assert threads[id := place][id] == place;
  }

  lemma TryingStays(threads: map<int, Place>, id: int, place: Place)
    requires id in threads && threads[id] != Arrived && threads[id] != Woken && place != Asleep
    requires Sleepers(threads) != {} ==> SomeTrying(threads)
    ensures Sleepers(threads[id := place]) != {} ==> SomeTrying(threads[id := place])
  {
    var now := threads[id := place];
    if Sleepers(now) != {} {
      var a := Anyone(Sleepers(now));
      assert a in Sleepers(threads);
      var k :| k in threads && (threads[k] == Arrived || threads[k] == Woken);
      assert now[k] == threads[k];
    }
  }

  lemma StepKeepsBrisk<T>(s: State<T>, a: Action<T>)
    requires Sound(s) && s.room == 1 && Enabled(s, a) && !Stalled(s) && !Stuck(s) && !Quits(After(s, a))
    ensures !Stalled(After(s, a)) && !Stuck(After(s, a))
  {
    match a
    case ProducerTries(p, x, woken) =>
      if s.items == [] {
        TryingAfterWake(s.consumers, woken);
      }
    case ConsumerTries(c, woken) =>
      if s.items != [] {
        TryingAfterWake(s.producers, woken);
      }
    case Clear(woken) =>
      if s.items != [] {
        TryingAfterWake(s.producers, woken);
      } else {
        assert Wake(s.producers, {}) == s.producers;
      }
    case ProducerCalls(p) => TryingAfterCall(s.producers, p, Arrived);
    case ProducerStirs(p) => TryingAfterCall(s.producers, p, Woken);
    case ConsumerCalls(c) => TryingAfterCall(s.consumers, c, Arrived);
    case ConsumerStirs(c) => TryingAfterCall(s.consumers, c, Woken);
    case ConsumerExpires(c) =>
      if s.items != [] {
        TryingStays(s.consumers, c, Expired);
      }
    case ConsumerLeaves(c) =>
      if s.items != [] {
        TryingStays(s.consumers, c, Away);
      }
    case Abort =>
  }

  lemma {:induction false} RunKeepsBrisk<T>(s: State<T>, run: seq<Action<T>>, t: State<T>)
    requires Sound(s) && s.room == 1 && !Stalled(s) && !Stuck(s) && Leads(s, run, t) && !Quits(t)
    ensures !Stalled(t) && !Stuck(t) && !Quits(s)
    decreases run
  {
    if run != [] {
      var next := After(s, run[0]);
      StepKeepsSound(s, run[0]);
      NeverUnaborts(next, run[1..], t);
      StepKeepsBrisk(s, run[0]);
      RunKeepsBrisk(next, run[1..], t);
    }
  }

  lemma StepFixes<T>(s: State<T>, a: Action<T>)
    requires Enabled(s, a)
    ensures var t := After(s, a);
      && (s.abort ==> t.abort) && t.heeds == s.heeds && t.room == s.room
      && t.producers.Keys == s.producers.Keys && t.consumers.Keys == s.consumers.Keys
  {
  }

  lemma {:induction false} NeverUnaborts<T>(s: State<T>, run: seq<Action<T>>, t: State<T>)
    requires Leads(s, run, t)
    ensures (s.abort ==> t.abort) && t.heeds == s.heeds
    ensures t.room == s.room && t.producers.Keys == s.producers.Keys && t.consumers.Keys == s.consumers.Keys
    decreases run
  {
    if run != [] {
      StepFixes(s, run[0]);
      NeverUnaborts(After(s, run[0]), run[1..], t);
    }
  }

  lemma OnlyOne(threads: map<int, Place>)
    requires |threads| <= 1 && SomeUp(threads)
    ensures Sleepers(threads) == {}
  {
    var up :| up in threads && threads[up] != Asleep;
    if Sleepers(threads) != {} {
      var id := Anyone(Sleepers(threads));
      assert {up, id} <= threads.Keys;
      SubsetSize({up, id}, threads.Keys);
    }
  }

  lemma AwayNotAsleep(threads: map<int, Place>)
    requires AllAway(threads)
    ensures Sleepers(threads) == {} && (threads != map[] ==> SomeUp(threads))
  {
    NobodyIsEmpty(Sleepers(threads));
    if threads != map[] {
      var id := Anyone(threads.Keys);
      assert threads[id] == Away;
    }
  }

  lemma TwoOf(threads: map<int, Place>) returns (a: int, b: int)
    requires |threads| >= 2
    ensures a in threads && b in threads && a != b
  {
    a := Anyone(threads.Keys);
    if threads.Keys - {a} == {} {
      SubsetSize(threads.Keys, {a});
    }
    b := Anyone(threads.Keys - {a});
  }

  // ----- runs that stall -----

  /** Some run of steps leads there. */
  ghost predicate Reaches<T(!new)>(s: State<T>, t: State<T>) {
    exists run :: Leads(s, run, t)
  }

  lemma Stays<T(!new)>(s: State<T>)
    ensures Reaches(s, s)
  {
    assert Leads(s, [], s);
  }

  lemma Then<T(!new)>(s: State<T>, t: State<T>, a: Action<T>) returns (next: State<T>)
    requires Reaches(s, t) && Enabled(t, a)
    ensures next == After(t, a) && Reaches(s, next)
  {
    next := After(t, a);
    var run :| Leads(s, run, t);
    assert [a][1..] == [];
    assert Leads(t, [a], next);
    LeadsOn(s, run, t, [a], next);
  }

  /** A consumer at rest comes to an empty queue and falls asleep. */
  lemma FallsAsleep<T(!new)>(s: State<T>, t0: State<T>, c: int) returns (t: State<T>)
    requires Reaches(s, t0) && At(t0.consumers, c, Away) && t0.items == []
    ensures Reaches(s, t) && t == t0.(consumers := t0.consumers[c := Asleep])
  {
    t := Then(s, t0, ConsumerCalls(c));
    t := Then(s, t, ConsumerTries(c, {}));
    assert t0.consumers[c := Arrived][c := Asleep] == t0.consumers[c := Asleep];
  }

  /** A producer at rest puts an item in; `woken` go free if a signal is due. */
  lemma PutsOne<T(!new)>(s: State<T>, t0: State<T>, p: int, x: T, woken: set<int>) returns (t: State<T>)
    requires Reaches(s, t0) && At(t0.producers, p, Away) && |t0.items| < t0.room
    requires Lets(t0.items == [], Sleepers(t0.consumers), woken)
    ensures Reaches(s, t)
    ensures t == t0.(consumers := Wake(t0.consumers, woken), items := t0.items + [x], put := t0.put + [x])
  {
    t := Then(s, t0, ProducerCalls(p));
    t := Then(s, t, ProducerTries(p, x, woken));
    assert t0.producers[p := Arrived][p := Away] == t0.producers;
  }

  lemma BothAsleep<T(!new)>(s: State<T>, c: int, d: int) returns (t: State<T>)
    requires Initial(s) && c in s.consumers && d in s.consumers && c != d
    ensures Reaches(s, t) && t == s.(consumers := s.consumers[c := Asleep][d := Asleep])
    ensures c in Sleepers(t.consumers) && d in Sleepers(t.consumers)
  {
    Stays(s);
    t := FallsAsleep(s, s, c);
    t := FallsAsleep(s, t, d);
  }

  /** Two consumers asleep, two items, one signal: one consumer takes one item
      and goes, and the other sleeps on. */
  lemma StallingRun<T(!new)>(s: State<T>, c: int, d: int, p: int, x: T) returns (t: State<T>)
    requires Initial(s) && s.room >= 2 && c in s.consumers && d in s.consumers && c != d && p in s.producers
    ensures Reaches(s, t) && !Quits(t) && Stalled(t)
  {
    t := BothAsleep(s, c, d);
    t := PutsOne(s, t, p, x, {c});
    t := PutsOne(s, t, p, x, {});
    assert t.items == [x, x] && t.consumers[c] == Woken && t.consumers[d] == Asleep;
    AwayNotAsleep(t.producers);
    t := Then(s, t, ConsumerTries(c, {}));
    assert t.items == [x];
    assert d in Sleepers(t.consumers);
  }

  /** The queue fills up. */
  lemma {:induction false} FillsUp<T(!new)>(s: State<T>, t0: State<T>, p: int, x: T) returns (t: State<T>)
    requires Reaches(s, t0) && At(t0.producers, p, Away) && |t0.items| <= t0.room && AllAway(t0.consumers)
    ensures Reaches(s, t) && |t.items| == t.room == t0.room && t.abort == t0.abort && t.heeds == t0.heeds
    ensures t.producers == t0.producers && t.consumers == t0.consumers
    decreases t0.room - |t0.items|
  {
    t := t0;
    if |t0.items| < t0.room {
      AwayNotAsleep(t0.consumers);
      t := PutsOne(s, t, p, x, {});
      assert Wake(t0.consumers, {}) == t0.consumers;
      t := FillsUp(s, t, p, x);
    }
  }

  /** A producer at rest comes to a full queue and falls asleep. */
  lemma WaitsForRoom<T(!new)>(s: State<T>, t0: State<T>, p: int, x: T) returns (t: State<T>)
    requires Reaches(s, t0) && At(t0.producers, p, Away) && |t0.items| == t0.room
    ensures Reaches(s, t) && t == t0.(producers := t0.producers[p := Asleep])
  {
    t := Then(s, t0, ProducerCalls(p));
    t := Then(s, t, ProducerTries(p, x, {}));
    assert t0.producers[p := Arrived][p := Asleep] == t0.producers[p := Asleep];
  }

  /** A consumer at rest takes an item out. */
  lemma TakesOne<T(!new)>(s: State<T>, t0: State<T>, c: int, woken: set<int>) returns (t: State<T>)
    requires Reaches(s, t0) && At(t0.consumers, c, Away) && t0.items != [] && |t0.items| <= t0.room
    requires Lets(|t0.items| == t0.room, Sleepers(t0.producers), woken)
    ensures Reaches(s, t) && t == t0.(producers := Wake(t0.producers, woken),
      items := t0.items[1..], gone := t0.gone + [t0.items[0]])
  {
    t := Then(s, t0, ConsumerCalls(c));
    t := Then(s, t, ConsumerTries(c, woken));
    assert t0.consumers[c := Arrived][c := Away] == t0.consumers;
  }

  lemma BothWaiting<T(!new)>(s: State<T>, p: int, q: int, x: T) returns (t: State<T>)
    requires Initial(s) && p in s.producers && q in s.producers && p != q
    ensures Reaches(s, t) && |t.items| == t.room == s.room && !t.abort && t.consumers == s.consumers
    ensures t.producers == s.producers[p := Asleep][q := Asleep]
    ensures p in Sleepers(t.producers) && q in Sleepers(t.producers)
  {
    Stays(s);
    t := FillsUp(s, s, p, x);
    t := WaitsForRoom(s, t, p, x);
    t := WaitsForRoom(s, t, q, x);
  }

  /** Two producers asleep, two items taken, one signal: one producer puts its
      item in and goes, and the other sleeps on. */
  lemma StickingRun<T(!new)>(s: State<T>, p: int, q: int, c: int, x: T) returns (t: State<T>)
    requires Initial(s) && s.room >= 2 && p in s.producers && q in s.producers && p != q && c in s.consumers
    ensures Reaches(s, t) && !Quits(t) && Stuck(t)
  {
    t := BothWaiting(s, p, q, x);
    t := TakesOne(s, t, c, {p});
    t := TakesOne(s, t, c, {});
    assert t.producers[p] == Woken && t.producers[q] == Asleep && |t.items| == t.room - 2;
    AwayNotAsleep(t.consumers);
    t := Then(s, t, ProducerTries(p, x, {}));
    assert q in Sleepers(t.producers);
  }

  lemma InitialIsSound<T>(s: State<T>)
    requires Initial(s)
    ensures Sound(s) && !Stalled(s) && !Stuck(s)
  {
    AwayNotAsleep(s.producers);
    AwayNotAsleep(s.consumers);
  }

  ghost predicate CanStall<T(!new)>(s: State<T>) {
    exists t: State<T> :: Reaches(s, t) && !Quits(t) && Stalled(t)
  }

  ghost predicate CanStick<T(!new)>(s: State<T>) {
    exists t: State<T> :: Reaches(s, t) && !Quits(t) && Stuck(t)
  }

  /** Signalling only when the queue stops being empty is enough exactly when
      there is but one consumer or but one place: otherwise some run leaves an
      item, a sleeping consumer and nobody about to look. */
  lemma StallsExactly<T(!new)>(s: State<T>, x: T)
    requires Initial(s) && s.producers != map[]
    ensures CanStall(s) <==> |s.consumers| >= 2 && s.room >= 2
  {
    InitialIsSound(s);
    if |s.consumers| >= 2 && s.room >= 2 {
      var c, d := TwoOf(s.consumers);
      var p := Anyone(s.producers.Keys);
      var t := StallingRun(s, c, d, p, x);
    } else {
      forall t: State<T> | Reaches(s, t) && !Quits(t) ensures !Stalled(t) {
        var run :| Leads(s, run, t);
        if s.room == 1 {
          RunKeepsBrisk(s, run, t);
        } else {
          OneNeverStalls(s, run, t);
        }
      }
    }
  }

  lemma OneNeverStalls<T>(s: State<T>, run: seq<Action<T>>, t: State<T>)
    requires Initial(s) && Leads(s, run, t)
    ensures |s.consumers| <= 1 && t.items != [] ==> Sleepers(t.consumers) == {}
    ensures |s.producers| <= 1 && |t.items| < t.room ==> Sleepers(t.producers) == {}
  {
    EveryRun(s, run, t);
    NeverUnaborts(s, run, t);
    SameSize(s.consumers, t.consumers);
    SameSize(s.producers, t.producers);
    if |s.consumers| <= 1 && t.items != [] && t.consumers != map[] {
      OnlyOne(t.consumers);
    }
    if |s.producers| <= 1 && |t.items| < t.room && t.producers != map[] {
      OnlyOne(t.producers);
    }
  }

  lemma SameSize(a: map<int, Place>, b: map<int, Place>)
    requires a.Keys == b.Keys
    ensures |a| == |b|
  {
    assert |a| == |a.Keys| && |b| == |b.Keys|;
  }

  /** The same for producers and room. */
  lemma SticksExactly<T(!new)>(s: State<T>, x: T)
    requires Initial(s) && s.consumers != map[]
    ensures CanStick(s) <==> |s.producers| >= 2 && s.room >= 2
  {
    InitialIsSound(s);
    if |s.producers| >= 2 && s.room >= 2 {
      var p, q := TwoOf(s.producers);
      var c := Anyone(s.consumers.Keys);
      var t := StickingRun(s, p, q, c, x);
    } else {
      forall t: State<T> | Reaches(s, t) && !Quits(t) ensures !Stuck(t) {
        var run :| Leads(s, run, t);
        if s.room == 1 {
          RunKeepsBrisk(s, run, t);
        } else {
          OneNeverStalls(s, run, t);
        }
      }
    }
  }

  /** A consumer whose wait has timed out goes away with nothing, even from a
      queue that has been given an item meanwhile. */
  lemma ExpiredMissesItem<T(!new)>(s: State<T>, c: int, p: int, x: T) returns (t: State<T>)
    requires Initial(s) && c in s.consumers && p in s.producers
    ensures Reaches(s, t) && t.items == [x] && At(t.consumers, c, Expired)
    ensures Enabled(t, ConsumerLeaves(c)) && After(t, ConsumerLeaves(c)).items == [x]
    ensures forall woken :: !Enabled(t, ConsumerTries(c, woken))
  {
    Stays(s);
    t := FallsAsleep(s, s, c);
    t := Then(s, t, ConsumerExpires(c));
    AwayNotAsleep(s.consumers);
    NobodyIsEmpty(Sleepers(t.consumers));
    t := PutsOne(s, t, p, x, {});
  }

  /** Some run lets a consumer whose wait has timed out leave items behind. */
  ghost predicate CanMiss<T(!new)>(s: State<T>) {
    exists t: State<T>, c: int :: Reaches(s, t) && Misses(t, c)
  }

  predicate Misses(s: State, c: int) {
    At(s.consumers, c, Expired) && s.items != []
  }

  /** That takes a consumer and a producer, and no more. */
  lemma MissesExactly<T(!new)>(s: State<T>, x: T)
    requires Initial(s)
    ensures CanMiss(s) <==> s.consumers != map[] && s.producers != map[]
  {
    if s.consumers != map[] && s.producers != map[] {
      var c := Anyone(s.consumers.Keys);
      var p := Anyone(s.producers.Keys);
      var t := ExpiredMissesItem(s, c, p, x);
      assert Reaches(s, t) && Misses(t, c);
    } else {
      forall t: State<T>, c: int | Reaches(s, t) ensures !Misses(t, c) {
        var run :| Leads(s, run, t);
        NeverUnaborts(s, run, t);
        if s.producers == map[] {
          NothingPut(s, run, t);
          EveryRun(s, run, t);
        }
      }
    }
  }

  lemma {:induction false} NothingPut<T>(s: State<T>, run: seq<Action<T>>, t: State<T>)
    requires Leads(s, run, t) && s.producers == map[]
    ensures t.put == s.put
    decreases run
  {
    if run != [] {
      assert After(s, run[0]).producers == map[];
      NothingPut(After(s, run[0]), run[1..], t);
    }
  }

  /** What has been put in and what has gone out only ever grow. */
  lemma {:induction false} HistoryGrows<T>(s: State<T>, run: seq<Action<T>>, t: State<T>)
    requires Leads(s, run, t)
    ensures s.put <= t.put && s.gone <= t.gone
    decreases run
  {
    if run != [] {
      HistoryGrows(After(s, run[0]), run[1..], t);
    }
  }

  /** Over one run: the consumer that expired at `e` finds items as it leaves at
      `t` exactly when not all has gone since, of what lay in the queue at its
      expiry and what has been put in since. It finds just the rest of that. */
  lemma MissesInRun<T>(s: State<T>, before: seq<Action<T>>, e: State<T>, c: int, after: seq<Action<T>>, t: State<T>)
    requires Initial(s) && Leads(s, before, e) && Enabled(e, ConsumerExpires(c))
    requires Leads(After(e, ConsumerExpires(c)), after, t) && At(t.consumers, c, Expired)
    ensures e.put <= t.put
    ensures var came, went := e.items + t.put[|e.put|..], |t.gone| - |e.gone|;
      && 0 <= went <= |came| && t.items == came[went..]
      && (Misses(t, c) <==> went < |came|)
  {
    EveryRun(s, before, e);
    InitialIsSound(s);
    RunKeepsSound(s, before, e);
    var x := After(e, ConsumerExpires(c));
    StepKeepsSound(e, ConsumerExpires(c));
    RunKeepsSound(x, after, t);
    HistoryGrows(x, after, t);
    RestOf(e.gone, e.items, e.put, t.gone, t.items, t.put);
  }

  lemma RestOf<T>(gone: seq<T>, items: seq<T>, put: seq<T>, goneNow: seq<T>, itemsNow: seq<T>, putNow: seq<T>)
    requires put == gone + items && putNow == goneNow + itemsNow && put <= putNow && gone <= goneNow
    ensures var came, went := items + putNow[|put|..], |goneNow| - |gone|;
      0 <= went <= |came| && itemsNow == came[went..]
  {
    var came := items + putNow[|put|..];
    assert putNow[|gone|..] == came by {
      assert putNow == put + putNow[|put|..];
    }
    assert itemsNow == putNow[|goneNow|..];
  }

  // ----- the time limit of a wait -----

  datatype Timespec = Timespec(sec: int, nsec: int)

  function Deadline(sec: int, usec: int, timeout: nat): Timespec {
    Timespec(sec + timeout / 1000, usec * 1000 + timeout % 1000 * 1_000_000)
  }

  /** A moment that the wait accepts. */
  predicate Proper(d: Timespec) {
    0 <= d.nsec < 1_000_000_000
  }

  /** The deadline names the right moment. */
  lemma DeadlineRight(sec: int, usec: int, timeout: nat)
    ensures var d := Deadline(sec, usec, timeout);
      d.sec * 1_000_000_000 + d.nsec == sec * 1_000_000_000 + usec * 1000 + timeout * 1_000_000
  {
    assert timeout == timeout / 1000 * 1000 + timeout % 1000;
  }

  /** It is accepted whatever the clock says exactly for whole seconds. */
  lemma DeadlineProper(timeout: nat)
    ensures (forall sec, usec :: 0 <= usec < 1_000_000 ==> Proper(Deadline(sec, usec, timeout)))
      <==> timeout % 1000 == 0
  {
    if timeout % 1000 != 0 {
      DeadlineMalformed(0, timeout);
    }
  }

  /** In the last microsecond of a second every other limit is refused, that of
      one millisecond already. */
  lemma DeadlineMalformed(sec: int, timeout: nat)
    requires timeout % 1000 != 0
    ensures !Proper(Deadline(sec, 999_999, timeout)) && !Proper(Deadline(sec, 999_999, 1))
  {
  }

  // ----- a wait that is refused -----

  /** A wait with a malformed deadline is refused before it lets go of the mutex,
      and not as a time-out: the consumer goes round its loop and keeps the mutex.
      `holder` is the consumer that does. */
  datatype Scene<T> = Scene(queue: State<T>, holder: Option<int>)

  /** A step of the protocol; a first wait, refused for the deadline that follows
      from the clock; or one more turn of the loop. */
  datatype Move<T> = Steps(action: Action<T>) | Refused(id: int, sec: int, usec: int) | SpinsOn

  /** While a consumer spins nothing needing the mutex can be done; an abort, if
      the queue heeds it, lets the consumer leave. */
  predicate CanMove<T>(timeout: nat, w: Scene<T>, m: Move<T>) {
    match m
    case Steps(a) =>
      && Enabled(w.queue, a)
      && (w.holder.None? || a.Abort? || (a.ConsumerLeaves? && w.holder == Some(a.id) && Quits(w.queue)))
    case Refused(c, sec, usec) =>
      && w.holder.None? && At(w.queue.consumers, c, Arrived) && w.queue.items == []
      && 0 <= usec < 1_000_000 && !Proper(Deadline(sec, usec, timeout))
    case SpinsOn => w.holder.Some? && !Quits(w.queue)
  }

  function Moved<T>(timeout: nat, w: Scene<T>, m: Move<T>): Scene<T>
    requires CanMove(timeout, w, m)
  {
    match m
    case Steps(a) => Scene(After(w.queue, a), if a.ConsumerLeaves? then None else w.holder)
    case Refused(c, _, _) => Scene(w.queue.(consumers := w.queue.consumers[c := Woken]), Some(c))
    case SpinsOn => w
  }

  function Played<T>(timeout: nat, w: Scene<T>, run: seq<Move<T>>): Option<Scene<T>>
    decreases run
  {
    if run == [] then Some(w)
    else if CanMove(timeout, w, run[0]) then Played(timeout, Moved(timeout, w, run[0]), run[1..]) else None
  }

  lemma {:induction false} StaysQuitting<T>(timeout: nat, w: Scene<T>, run: seq<Move<T>>, t: Scene<T>)
    requires Played(timeout, w, run) == Some(t) && Quits(w.queue)
    ensures Quits(t.queue)
    decreases run
  {
    if run != [] {
      StaysQuitting(timeout, Moved(timeout, w, run[0]), run[1..], t);
    }
  }

  /** From then on, until there is an abort that is heeded, nothing is put in and
      nothing taken out, and every other thread stays where it is. */
  lemma {:induction false} SpinsForever<T>(timeout: nat, w: Scene<T>, run: seq<Move<T>>, t: Scene<T>)
    requires w.holder.Some? && Played(timeout, w, run) == Some(t) && !Quits(t.queue)
    ensures t.holder == w.holder && t.queue == w.queue.(abort := t.queue.abort)
    decreases run
  {
    if run != [] {
      var next := Moved(timeout, w, run[0]);
      if Quits(w.queue) {
        StaysQuitting(timeout, w, run, t);
      } else {
        SpinsForever(timeout, next, run[1..], t);
      }
    }
  }

  ghost predicate CanSpin<T(!new)>(timeout: nat, s: State<T>) {
    exists run: seq<Move<T>>, t: Scene<T> :: Played(timeout, Scene(s, None), run) == Some(t) && t.holder.Some?
  }

  lemma SameConsumers<T>(s: State<T>, a: Action<T>)
    requires Enabled(s, a)
    ensures After(s, a).consumers.Keys == s.consumers.Keys
  {
  }

  lemma {:induction false} SpinsOnlyFor<T>(timeout: nat, w: Scene<T>, run: seq<Move<T>>, t: Scene<T>)
    requires Played(timeout, w, run) == Some(t) && w.holder.None? && t.holder.Some?
    ensures timeout % 1000 != 0 && w.queue.consumers != map[]
    decreases run
  {
    var m := run[0];
    var next := Moved(timeout, w, m);
    if m.Refused? {
      DeadlineProper(timeout);
      assert m.id in w.queue.consumers;
    } else {
      SameConsumers(w.queue, m.action);
      SpinsOnlyFor(timeout, next, run[1..], t);
    }
  }

  /** It can come to that exactly if there is a consumer and its time limit is not
      a whole number of seconds. */
  lemma SpinsExactly<T(!new)>(timeout: nat, s: State<T>)
    requires Initial(s)
    ensures CanSpin(timeout, s) <==> s.consumers != map[] && timeout % 1000 != 0
  {
    if s.consumers != map[] && timeout % 1000 != 0 {
      var c := Anyone(s.consumers.Keys);
      var run, t := ComesToSpin(timeout, s, c);
      assert Played(timeout, Scene(s, None), run) == Some(t) && t.holder.Some?;
    }
    forall run: seq<Move<T>>, t: Scene<T> | Played(timeout, Scene(s, None), run) == Some(t) && t.holder.Some?
      ensures s.consumers != map[] && timeout % 1000 != 0
    {
      SpinsOnlyFor(timeout, Scene(s, None), run, t);
    }
  }

  /** A consumer calls in the last microsecond of a second. */
  lemma ComesToSpin<T>(timeout: nat, s: State<T>, c: int) returns (run: seq<Move<T>>, t: Scene<T>)
    requires Initial(s) && c in s.consumers && timeout % 1000 != 0
    ensures Played(timeout, Scene(s, None), run) == Some(t) && t.holder == Some(c)
  {
    var call: Move<T>, refused: Move<T> := Steps(ConsumerCalls(c)), Refused(c, 0, 999_999);
    DeadlineMalformed(0, timeout);
    var w := Moved(timeout, Scene(s, None), call);
    t := Moved(timeout, w, refused);
    run := [call, refused];
    assert run[1..] == [refused] && [refused][1..] == [];
    assert Played(timeout, t, []) == Some(t) && Played(timeout, w, [refused]) == Some(t);
  }

  // ----- the protocol run on the ring -----

  /** What a thread may do next, as far as it is not for the program to say. */
  datatype Turn<T> =
    | Enqueues(id: int, item: T)
    | Dequeues(id: int)
    | Clears(freeItems: bool)
    | Moves(producer: bool, id: int, to: Place)
    | Aborts

  /** The step that a turn is, with the sleepers that its signal lets go. */
  function StepOf<T>(turn: Turn<T>, woken: set<int>): Option<Action<T>> {
    match turn
    case Enqueues(p, x) => Some(ProducerTries(p, x, woken))
    case Dequeues(c) => Some(ConsumerTries(c, woken))
    case Clears(_) => Some(Clear(woken))
    case Aborts => Some(Abort)
    case Moves(producer, id, to) =>
      match to
      case Arrived => Some(if producer then ProducerCalls(id) else ConsumerCalls(id))
      case Woken => Some(if producer then ProducerStirs(id) else ConsumerStirs(id))
      case Expired => if producer then None else Some(ConsumerExpires(id))
      case Away => if producer then None else Some(ConsumerLeaves(id))
      case Asleep => None
  }

  predicate Takes<T>(s: State<T>, turn: Turn<T>, woken: set<int>) {
    StepOf(turn, woken).Some? && Enabled(s, StepOf(turn, woken).value)
  }

  ghost predicate CanTake<T>(s: State<T>, turn: Turn<T>) {
    exists woken :: Takes(s, turn, woken)
  }

  /** One turn from `s` to `t`: the step that the turn is, if it can be taken, and
      nothing otherwise. */
  ghost predicate Turned<T>(s: State<T>, turn: Turn<T>, run: seq<Action<T>>, t: State<T>) {
    if CanTake(s, turn) then
      exists woken :: Takes(s, turn, woken) && run == [StepOf(turn, woken).value] && t == After(s, run[0])
    else run == [] && t == s
  }

  /** The same turn by turn; `runs` are the steps of each. */
  ghost predicate TurnByTurn<T>(s: State<T>, turns: seq<Turn<T>>, states: seq<State<T>>, runs: seq<seq<Action<T>>>) {
    && |states| == |turns| + 1 && |runs| == |turns| && states[0] == s
    && forall i :: 0 <= i < |turns| ==> Turned(states[i], turns[i], runs[i], states[i + 1])
  }

  lemma TurnedLeads<T>(s: State<T>, turn: Turn<T>, run: seq<Action<T>>, t: State<T>)
    requires Turned(s, turn, run, t)
    ensures Leads(s, run, t)
  {
    if run != [] {
      assert run[1..] == [];
      assert Outcome(t, []) == Some(t);
    }
  }

  lemma OneMoreTurn<T>(s: State<T>, turns: seq<Turn<T>>, states: seq<State<T>>, runs: seq<seq<Action<T>>>,
                       turn: Turn<T>, run: seq<Action<T>>, t: State<T>)
    requires TurnByTurn(s, turns, states, runs) && Turned(states[|turns|], turn, run, t)
    ensures TurnByTurn(s, turns + [turn], states + [t], runs + [run])
  {
    forall i | 0 <= i < |turns + [turn]|
      ensures Turned((states + [t])[i], (turns + [turn])[i], (runs + [run])[i], (states + [t])[i + 1])
    {
      assert i < |turns| ==> Turned(states[i], turns[i], runs[i], states[i + 1]);
    }
  }

  /** So the turn of a producer that has come, or is back from its wait, puts its
      item behind the others, or sends it to sleep if there is no room. */
  lemma EnqueueTurn<T>(s: State<T>, p: int, x: T, run: seq<Action<T>>, t: State<T>)
    requires Turned(s, Enqueues(p, x), run, t) && MayTry(s.producers, p, false) && Sound(s)
    ensures |s.items| < s.room ==> t.items == s.items + [x] && At(t.producers, p, Away)
    ensures |s.items| == s.room ==> t.items == s.items && At(t.producers, p, Asleep)
  {
    EnqueueIsDue(s, p, x);
  }

  /** And that of a consumer takes the first item, or sends it to sleep. */
  lemma DequeueTurn<T>(s: State<T>, c: int, run: seq<Action<T>>, t: State<T>)
    requires Turned(s, Dequeues(c), run, t) && MayTry(s.consumers, c, Quits(s)) && Sound(s)
    ensures s.items != [] ==> s.items == [s.items[0]] + t.items && t.gone == s.gone + [s.items[0]]
    ensures s.items == [] ==> t.items == [] && At(t.consumers, c, Asleep)
  {
    DequeueIsDue(s, c);
  }

  /** A thread at the mutex can always take its turn. */
  lemma EnqueueIsDue<T>(s: State<T>, p: int, x: T)
    requires MayTry(s.producers, p, false)
    ensures CanTake(s, Enqueues(p, x))
  {
    var signal := |s.items| != s.room && Owed(s.room, |s.items|, |s.items| + 1).notEmpty;
    assert Takes(s, Enqueues(p, x), if signal then Sleepers(s.consumers) else {});
  }

  lemma DequeueIsDue<T>(s: State<T>, c: int)
    requires MayTry(s.consumers, c, Quits(s))
    ensures CanTake(s, Dequeues(c))
  {
    var signal := s.items != [] && Owed(s.room, |s.items|, |s.items| - 1).notFull;
    assert Takes(s, Dequeues(c), if signal then Sleepers(s.producers) else {});
  }

  class SharedQueue<T> {
    const queue: Queue<T>
    const heeds: bool
    var producers: map<int, Place>
    var consumers: map<int, Place>
    var abort: bool
    ghost var put: seq<T>
    ghost var gone: seq<T>

    ghost predicate Valid()
      reads this, queue, queue.itemTable
    {
      queue.Valid() && queue.Room() > 0
    }

    ghost function Abstract(): State<T>
      requires Valid()
      reads this, queue, queue.itemTable
    {
      State(queue.Room(), producers, consumers, queue.Contents(), put, gone, heeds, abort)
    }

    constructor (queue: Queue<T>, heeds: bool, producers: map<int, Place>, consumers: map<int, Place>)
      requires queue.Valid() && queue.Room() > 0 && queue.Contents() == []
      requires AllAway(producers) && AllAway(consumers)
      ensures this.queue == queue && this.heeds == heeds && Valid() && Initial(Abstract())
    {
      this.queue, this.heeds, this.producers, this.consumers := queue, heeds, producers, consumers;
      abort, put, gone := false, [], [];
    }

    /** Which sleepers a signal lets go is not for the program to say. */
    static method Signal(signal: bool, sleepers: set<int>) returns (woken: set<int>)
      ensures Lets(signal, sleepers, woken)
    {
      woken := {};
      if signal {
        assert sleepers <= sleepers;
        woken :| woken <= sleepers && (sleepers != {} ==> woken != {});
      }
    }

    /** From taking the mutex in an enqueue to letting it go or waiting. */
    method ProducerTurn(p: int, x: T) returns (ghost step: Action<T>)
      requires Valid() && MayTry(producers, p, false)
      modifies this, queue, queue.itemTable
      ensures Valid() && step.ProducerTries? && step.id == p && step.item == x
      ensures Enabled(old(Abstract()), step) && Abstract() == After(old(Abstract()), step)
    {
      if queue.full {
        producers := producers[p := Asleep];
        step := ProducerTries(p, x, {});
      } else {
        var signals := queue.Insert(x);
        var woken := Signal(signals.notEmpty, Sleepers(consumers));
        producers, consumers := producers[p := Away], Wake(consumers, woken);
        put := put + [x];
        step := ProducerTries(p, x, woken);
      }
    }

    /** From taking the mutex in a dequeue to letting it go or waiting. */
    method ConsumerTurn(c: int) returns (item: Slot<T>, ghost step: Action<T>)
      requires Valid() && MayTry(consumers, c, Quits(Abstract()))
      modifies this, queue, queue.itemTable
      ensures Valid() && step.ConsumerTries? && step.id == c
      ensures Enabled(old(Abstract()), step) && Abstract() == After(old(Abstract()), step)
      ensures gone == old(gone) + if item.Item? then [item.value] else []
    {
      if queue.empty {
        consumers := consumers[c := Asleep];
        item, step := Vacant, ConsumerTries(c, {});
      } else {
        var x, signals := queue.Take();
        var woken := Signal(signals.notFull, Sleepers(producers));
        consumers, producers := consumers[c := Away], Wake(producers, woken);
        gone := gone + [x];
        item, step := Item(x), ConsumerTries(c, woken);
      }
    }

    method ClearTurn(freeItems: bool) returns (ghost step: Action<T>)
      requires Valid()
      modifies this, queue, queue.itemTable
      ensures Valid() && step.Clear?
      ensures Enabled(old(Abstract()), step) && Abstract() == After(old(Abstract()), step)
    {
      ghost var items := queue.Contents();
      var signals, freed := queue.Clear(freeItems);
      var woken := Signal(signals.notFull, Sleepers(producers));
      producers := Wake(producers, woken);
      gone := gone + items;
      step := Clear(woken);
    }

    /** A turn of some thread, which the program takes if it is that thread's to
        take: one that is not leaves everything as it is. */
    method Take(turn: Turn<T>) returns (ghost run: seq<Action<T>>)
      requires Valid()
      modifies this, queue, queue.itemTable
      ensures Valid() && Turned(old(Abstract()), turn, run, Abstract())
    {
      run := [];
      ghost var s := Abstract();
      ghost var step;
      match turn
      case Enqueues(p, x) =>
        if MayTry(producers, p, false) {
          step := ProducerTurn(p, x);
          run := [step];
          assert Takes(s, turn, step.woken);
        }
      case Dequeues(c) =>
        if MayTry(consumers, c, heeds && abort) {
          var item;
          item, step := ConsumerTurn(c);
          run := [step];
          assert Takes(s, turn, step.woken);
        }
      case Clears(freeItems) =>
        step := ClearTurn(freeItems);
        run := [step];
        assert Takes(s, turn, step.woken);
      case Aborts =>
        abort := true;
        run := [Abort];
        assert Takes(s, turn, {});
      case Moves(producer, id, to) => run := Move(producer, id, to);
    }

    /** A thread comes to the mutex in a new call, is woken without a signal, gives
        up its wait, or goes away without an item. */
    method Move(producer: bool, id: int, to: Place) returns (ghost run: seq<Action<T>>)
      requires Valid()
      modifies this`producers, this`consumers
      ensures Valid() && Turned(old(Abstract()), Moves(producer, id, to), run, Abstract())
    {
      run := [];
      ghost var s, turn := Abstract(), Moves(producer, id, to);
      if producer {
        if (At(producers, id, Away) && to == Arrived) || (At(producers, id, Asleep) && to == Woken) {
          producers := producers[id := to];
          run := [StepOf(turn, {}).value];
          assert Takes(s, turn, {});
        }
      } else if MayMove(to, id) {
        consumers := consumers[id := to];
        run := [StepOf(turn, {}).value];
        assert Takes(s, turn, {});
      }
    }

    predicate MayMove(to: Place, c: int)
      reads this
    {
      match to
      case Arrived => At(consumers, c, Away)
      case Woken => At(consumers, c, Asleep)
      case Expired => At(consumers, c, Asleep)
      case Away => At(consumers, c, Expired) || (At(consumers, c, Woken) && heeds && abort)
      case Asleep => false
    }

    /** Whatever turns the threads take on the ring, in whatever order, every one
        that can be taken is, as the step that it is; so they are a run of the
        protocol, and from the start everything put in has gone out in order up
        to what the ring holds, the ring never overfills, and it never holds items
        with every consumer asleep. */
    method Execute(turns: seq<Turn<T>>)
      returns (ghost states: seq<State<T>>, ghost runs: seq<seq<Action<T>>>, ghost run: seq<Action<T>>)
      requires Valid()
      modifies this, queue, queue.itemTable
      ensures Valid() && TurnByTurn(old(Abstract()), turns, states, runs) && Abstract() == states[|turns|]
      ensures Leads(old(Abstract()), run, Abstract())
      ensures old(Initial(Abstract())) ==>
        && put == gone + queue.Contents() && |queue.Contents()| <= queue.Room()
        && (queue.Contents() != [] && consumers != map[] ==> SomeUp(consumers))
    {
      ghost var first := Abstract();
      states, runs, run := [first], [], [];
      for i := 0 to |turns|
        invariant Valid() && TurnByTurn(first, turns[..i], states, runs) && Abstract() == states[i]
        invariant Leads(first, run, Abstract())
      {
        ghost var before := Abstract();
        ghost var more := Take(turns[i]);
        TurnedLeads(before, turns[i], more, Abstract());
        LeadsOn(first, run, before, more, Abstract());
        OneMoreTurn(first, turns[..i], states, runs, turns[i], more, Abstract());
        assert turns[..i + 1] == turns[..i] + [turns[i]];
        states, runs, run := states + [Abstract()], runs + [more], run + more;
      }
      assert turns[..|turns|] == turns;
      if Initial(first) {
        EveryRun(first, run, Abstract());
      }
    }
  }
}
