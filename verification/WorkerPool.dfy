/** The queue of accepted sockets and the worker threads that serve it. */
module WorkerPool {
  import opened Options
  import opened Sets

  const SIZE := 20

  /** A worker has just been started, sleeps in the wait set, is back at the
      mutex after a wake-up, is about to end after a time-out, or has a socket. */
  datatype Place = Starting | Waiting | Woken | Leaving | Busy

  /** The master thread is about to queue a socket, or sleeps until there is room. */
  datatype Master = Up | Asleep

  datatype State<S> = State(
    limit: int, workers: map<int, Place>, master: Master, numThreads: int, numIdle: int,
    items: seq<S>, put: seq<S>, taken: seq<S>)

  /** A step. `woken` are the workers that the signal lets go; `newcomers` is the
      worker that is started, if one is due and can be started. */
  datatype Action<S> =
    | MasterTries(socket: S, newcomers: set<int>, woken: set<int>)
    | MasterStirs
    | WorkerTries(id: int)
    | WorkerStirs(id: int)
    | WorkerExpires(id: int)
    | WorkerEnds(id: int)

  function Sleepers(workers: map<int, Place>): set<int> {
    set w | w in workers && workers[w] == Waiting
  }

  /** Those whom the counter of idle threads counts: also the ones that are
      about to end. */
  function Idle(workers: map<int, Place>): set<int> {
    set w | w in workers && workers[w] != Starting && workers[w] != Busy
  }

  function Wake(workers: map<int, Place>, woken: set<int>): map<int, Place> {
    map w | w in workers :: if w in woken then Woken else workers[w]
  }

  predicate At(workers: map<int, Place>, id: int, place: Place) {
    id in workers && workers[id] == place
  }

  predicate StartsOne(s: State) {
    s.numIdle == 0 && s.numThreads < s.limit
  }

  predicate Enabled<S>(s: State<S>, a: Action<S>) {
    match a
    case MasterTries(x, newcomers, woken) =>
      && s.master == Up
      && (|s.items| >= SIZE ==> newcomers == woken == {})
      && woken <= Sleepers(s.workers) && (|s.items| < SIZE && Sleepers(s.workers) != {} ==> woken != {})
      && |newcomers| <= (if StartsOne(s) then 1 else 0) && newcomers !! s.workers.Keys
    case MasterStirs => s.master == Asleep
    case WorkerTries(w) => At(s.workers, w, Starting) || At(s.workers, w, Busy) || At(s.workers, w, Woken)
    case WorkerStirs(w) => At(s.workers, w, Waiting)
    case WorkerExpires(w) => At(s.workers, w, Waiting)
    case WorkerEnds(w) => At(s.workers, w, Leaving)
  }

  function Started(workers: map<int, Place>, newcomers: set<int>): map<int, Place> {
    map w | w in workers.Keys + newcomers :: if w in newcomers then Starting else workers[w]
  }

  function After<S>(s: State<S>, a: Action<S>): State<S>
    requires Enabled(s, a)
  {
    match a
    case MasterTries(x, newcomers, woken) =>
      if |s.items| >= SIZE then s.(master := Asleep)
      else s.(items := s.items + [x], put := s.put + [x], numThreads := s.numThreads + |newcomers|,
              workers := Wake(Started(s.workers, newcomers), woken))
    case MasterStirs => s.(master := Up)
    case WorkerTries(w) =>
      var counted := if s.workers[w] == Woken then 0 else 1;
      if s.items == [] then s.(workers := s.workers[w := Waiting], numIdle := s.numIdle + counted)
      else s.(workers := s.workers[w := Busy], numIdle := s.numIdle + counted - 1, master := Up,
              items := s.items[1..], taken := s.taken + [s.items[0]])
    case WorkerStirs(w) => s.(workers := s.workers[w := Woken])
    case WorkerExpires(w) => s.(workers := s.workers[w := Leaving])
    case WorkerEnds(w) => s.(workers := s.workers - {w}, numThreads := s.numThreads - 1, numIdle := s.numIdle - 1)
  }

  /** Where a run of steps ends, if each of them can be taken. */
  function Outcome<S>(s: State<S>, run: seq<Action<S>>): Option<State<S>>
    decreases run
  {
    if run == [] then Some(s) else if Enabled(s, run[0]) then Outcome(After(s, run[0]), run[1..]) else None
  }

  predicate Leads<S(==)>(s: State<S>, run: seq<Action<S>>, t: State<S>) {
    Outcome(s, run) == Some(t)
  }

  predicate Initial(s: State) {
    && s.workers == map[] && s.master == Up && s.numThreads == 0 && s.numIdle == 0
    && s.items == [] && s.put == [] && s.taken == []
  }

  // ----- what every run keeps -----

  predicate Sound<S(==)>(s: State<S>) {
    && |s.items| <= SIZE && s.put == s.taken + s.items
    && s.numThreads == |s.workers.Keys| && s.numIdle == |Idle(s.workers)|
    && (s.numThreads <= s.limit || s.numThreads == 0)
    && (s.master == Asleep ==> |s.items| == SIZE)
  }

  lemma IdleIsSome(workers: map<int, Place>)
    ensures Idle(workers) <= workers.Keys && |Idle(workers)| <= |workers.Keys|
  {
    SubsetSize(Idle(workers), workers.Keys);
  }

  lemma IdleMove(workers: map<int, Place>, w: int, place: Place)
    requires w in workers
    ensures workers[w := place].Keys == workers.Keys
    ensures var idle := Idle(workers[w := place]);
      if place == Starting || place == Busy then idle == Idle(workers) - {w} else idle == Idle(workers) + {w}
  {
  }

  lemma IdleStays(workers: map<int, Place>, w: int, place: Place)
    requires w in Idle(workers) && (place == Woken || place == Leaving)
    ensures workers[w := place].Keys == workers.Keys && Idle(workers[w := place]) == Idle(workers)
  {
    IdleMove(workers, w, place);
    assert Idle(workers) + {w} == Idle(workers);
  }

  lemma IdleStart(workers: map<int, Place>, newcomers: set<int>, woken: set<int>)
    requires newcomers !! workers.Keys && woken <= Sleepers(workers)
    ensures var now := Wake(Started(workers, newcomers), woken);
      now.Keys == workers.Keys + newcomers && Idle(now) == Idle(workers)
  {
    var now := Wake(Started(workers, newcomers), woken);
    forall w ensures w in Idle(now) <==> w in Idle(workers) {
      assert w in woken ==> w in Sleepers(workers);
    }
  }

  lemma PutKeepsSound<S>(s: State<S>, x: S, newcomers: set<int>, woken: set<int>)
    requires Sound(s) && Enabled(s, MasterTries(x, newcomers, woken))
    ensures Sound(After(s, MasterTries(x, newcomers, woken)))
  {
    if |s.items| < SIZE {
      IdleStart(s.workers, newcomers, woken);
      assert s.put + [x] == s.taken + (s.items + [x]);
    }
  }

  lemma WorkerKeepsSound<S>(s: State<S>, w: int)
    requires Sound(s) && Enabled(s, WorkerTries(w))
    ensures Sound(After(s, WorkerTries(w)))
  {
    IdleMove(s.workers, w, if s.items == [] then Waiting else Busy);
    if s.items != [] {
      assert s.taken + s.items == s.taken + [s.items[0]] + s.items[1..];
    }
  }

  lemma EndKeepsSound<S>(s: State<S>, w: int)
    requires Sound(s) && Enabled(s, WorkerEnds(w))
    ensures Sound(After(s, WorkerEnds(w)))
  {
    assert (s.workers - {w}).Keys == s.workers.Keys - {w};
    assert Idle(s.workers - {w}) == Idle(s.workers) - {w};
  }

  lemma StepKeepsSound<S>(s: State<S>, a: Action<S>)
    requires Sound(s) && Enabled(s, a)
    ensures Sound(After(s, a))
  {
    match a
    case MasterTries(x, newcomers, woken) =>
      PutKeepsSound(s, x, newcomers, woken);
    case WorkerTries(w) => WorkerKeepsSound(s, w);
    case WorkerStirs(w) => IdleStays(s.workers, w, Woken);
    case WorkerExpires(w) => IdleStays(s.workers, w, Leaving);
    case WorkerEnds(w) => EndKeepsSound(s, w);
    case MasterStirs =>
  }

  lemma {:induction false} RunKeepsSound<S>(s: State<S>, run: seq<Action<S>>, t: State<S>)
    requires Sound(s) && Leads(s, run, t)
    ensures Sound(t) && t.limit == s.limit
    decreases run
  {
    if run != [] {
      StepKeepsSound(s, run[0]);
      RunKeepsSound(After(s, run[0]), run[1..], t);
    }
  }

  /** A run takes its first step whatever comes behind it. */
  lemma FirstStep<S>(s: State<S>, a: seq<Action<S>>, b: seq<Action<S>>) returns (next: State<S>, rest: seq<Action<S>>)
    requires a != [] && Outcome(s, a).Some?
    ensures rest == a[1..] && Outcome(s, a) == Outcome(next, rest) && Outcome(s, a + b) == Outcome(next, rest + b)
  {
    next, rest := After(s, a[0]), a[1..];
    assert (a + b)[0] == a[0] && (a + b)[1..] == rest + b;
  }

  lemma {:induction false} LeadsOn<S>(s: State<S>, a: seq<Action<S>>, t: State<S>, b: seq<Action<S>>, u: State<S>)
    requires Leads(s, a, t) && Leads(t, b, u)
    ensures Leads(s, a + b, u)
    decreases a
  {
    if a == [] {
      assert a + b == b;
    } else {
      var next, rest := FirstStep(s, a, b);
      LeadsOn(next, rest, t, b, u);
    }
  }

  /** In every run the sockets go out once each and in order, and the counters
      count what they say, within the limit. */
  lemma EveryRun<S>(s: State<S>, run: seq<Action<S>>, t: State<S>)
    requires Initial(s) && Leads(s, run, t)
    ensures t.put == t.taken + t.items && |t.items| <= 20
    ensures 0 <= t.numIdle <= t.numThreads == |t.workers.Keys| && t.numIdle == |Idle(t.workers)|
    ensures t.numThreads <= s.limit || t.numThreads == 0
    ensures t.master == Asleep ==> |t.items| == SIZE
  {
    RunKeepsSound(s, run, t);
    IdleIsSome(t.workers);
  }

  // ----- sockets that nobody is going to take -----

  /** A worker that will look at the queue of its own accord. */
  predicate SomeUp(workers: map<int, Place>) {
    exists w :: w in workers && workers[w] != Waiting && workers[w] != Leaving
  }

  predicate Attended(s: State) {
    s.items != [] ==> SomeUp(s.workers)
  }

  /** A socket queued now will be looked at: some worker is not on its way out,
      or there is none at all and one is started. */
  predicate Heeded(s: State, newcomers: set<int>) {
    newcomers != {} || exists w :: w in s.workers && s.workers[w] != Leaving
  }

  lemma Up1(workers: map<int, Place>, w: int)
    requires w in workers && workers[w] != Waiting && workers[w] != Leaving
    ensures SomeUp(workers)
  {
  }

  lemma OthersUp(workers: map<int, Place>, w: int, place: Place)
    requires w in workers && (workers[w] == Waiting || workers[w] == Leaving) && SomeUp(workers)
    ensures SomeUp(workers[w := place]) && SomeUp(workers - {w})
  {
    var u :| u in workers && workers[u] != Waiting && workers[u] != Leaving;
    Up1(workers[w := place], u);
    Up1(workers - {w}, u);
  }

  /** Every step but the queueing of a socket leaves the queue attended; that
      one does so exactly when it is heeded. */
  lemma StepAttends<S>(s: State<S>, a: Action<S>)
    requires Attended(s) && Enabled(s, a)
    ensures Attended(After(s, a)) <==> (a.MasterTries? && |s.items| < SIZE ==> Heeded(s, a.newcomers))
  {
    var t := After(s, a);
    match a
    case MasterTries(x, newcomers, woken) =>
      if |s.items| < SIZE {
        PutAttends(s, newcomers, woken);
      }
    case WorkerTries(w) =>
      if s.items != [] {
        Up1(t.workers, w);
      }
    case WorkerStirs(w) => Up1(t.workers, w);
    case WorkerExpires(w) =>
      if s.items != [] {
        OthersUp(s.workers, w, Leaving);
      }
    case WorkerEnds(w) =>
      if s.items != [] {
        OthersUp(s.workers, w, Leaving);
      }
    case MasterStirs =>
  }

  lemma PutAttends<S>(s: State<S>, newcomers: set<int>, woken: set<int>)
    requires newcomers !! s.workers.Keys && woken <= Sleepers(s.workers) && (Sleepers(s.workers) != {} ==> woken != {})
    ensures SomeUp(Wake(Started(s.workers, newcomers), woken)) <==> Heeded(s, newcomers)
  {
    var now := Wake(Started(s.workers, newcomers), woken);
    if newcomers != {} {
      var w := Anyone(newcomers);
      Up1(now, w);
    } else if Heeded(s, newcomers) {
      var w :| w in s.workers && s.workers[w] != Leaving;
      if s.workers[w] == Waiting {
        assert w in Sleepers(s.workers);
        var u := Anyone(woken);
        Up1(now, u);
      } else {
        Up1(now, w);
      }
    }
  }

  predicate AlwaysAttended<S>(s: State<S>, run: seq<Action<S>>)
    decreases run
  {
    Attended(s) && (run != [] && Enabled(s, run[0]) ==> AlwaysAttended(After(s, run[0]), run[1..]))
  }

  predicate EveryPutHeeded<S>(s: State<S>, run: seq<Action<S>>)
    decreases run
  {
    run != [] && Enabled(s, run[0]) ==>
      && (run[0].MasterTries? && |s.items| < SIZE ==> Heeded(s, run[0].newcomers))
      && EveryPutHeeded(After(s, run[0]), run[1..])
  }

  /** Over any run, no socket is ever left without a worker that will look for
      it exactly when every socket is queued while some worker is not on its way
      out or a new one can be started. */
  lemma {:induction false} AttendedExactly<S>(s: State<S>, run: seq<Action<S>>)
    requires Attended(s)
    ensures AlwaysAttended(s, run) <==> EveryPutHeeded(s, run)
    decreases run
  {
    if run != [] && Enabled(s, run[0]) {
      StepAttends(s, run[0]);
      if Attended(After(s, run[0])) {
        AttendedExactly(After(s, run[0]), run[1..]);
      }
    }
  }

  /** The only worker times out and, before it ends, a socket is queued: it is
      still counted as idle, so that no other worker is started for the socket. */
  lemma Stranded<S>(s: State<S>, w: int, x: S) returns (run: seq<Action<S>>, t: State<S>)
    requires Initial(s) && s.limit > 0
    ensures Leads(s, run, t) && t.items == [x] && t.workers == map[] && !Attended(t)
  {
    var s1 := After(s, MasterTries(x, {w}, {}));
    assert s1.workers == map[w := Starting];
    var s2 := After(s1, WorkerTries(w));
    var s3 := After(s2, WorkerTries(w));
    var s4 := After(s3, WorkerExpires(w));
    assert s4.workers == map[w := Leaving] && Sleepers(s4.workers) == {};
    var s5 := After(s4, MasterTries(x, {}, {}));
    t := After(s5, WorkerEnds(w));
    assert t.workers == map[];
    run := First(s5, WorkerEnds(w), [], t);
    run := First(s4, MasterTries(x, {}, {}), run, t);
    run := First(s3, WorkerExpires(w), run, t);
    run := First(s2, WorkerTries(w), run, t);
    run := First(s1, WorkerTries(w), run, t);
    run := First(s, MasterTries(x, {w}, {}), run, t);
  }

  lemma First<S>(s: State<S>, a: Action<S>, rest: seq<Action<S>>, t: State<S>) returns (run: seq<Action<S>>)
    requires Enabled(s, a) && Leads(After(s, a), rest, t)
    ensures Leads(s, run, t)
  {
    run := [a] + rest;
    assert run[1..] == rest;
  }

  // ----- the queue as a ring whose two positions are never far out -----

  /** `n` entries from position `tail` on, positions counting round the table. */
  function Ring<S>(table: seq<S>, tail: nat, n: nat): (r: seq<S>)
    requires |table| == SIZE
    ensures |r| == n && forall i :: 0 <= i < n ==> r[i] == table[(tail + i) % SIZE]
  {
    seq(n, i requires 0 <= i => table[(tail + i) % SIZE])
  }

  lemma RingPut<S>(table: seq<S>, tail: nat, n: nat, x: S)
    requires |table| == SIZE && n < SIZE
    ensures Ring(table[(tail + n) % SIZE := x], tail, n + 1) == Ring(table, tail, n) + [x]
  {
    var after := Ring(table[(tail + n) % SIZE := x], tail, n + 1);
    forall i | 0 <= i < n ensures after[i] == Ring(table, tail, n)[i] {
      Apart(tail + i, n - i);
    }
  }

  lemma Apart(p: nat, d: nat)
    requires 0 < d < SIZE
    ensures p % SIZE != (p + d) % SIZE
  {
  }

  lemma RingTake<S>(table: seq<S>, tail: nat, n: nat) returns (rest: seq<S>)
    requires |table| == SIZE && n > 0
    ensures rest == Ring(table, tail + 1, n - 1) && Ring(table, tail, n) == [table[tail % SIZE]] + rest
  {
    rest := Ring(table, tail + 1, n - 1);
    forall i | 0 <= i < n - 1 ensures Ring(table, tail, n)[1..][i] == rest[i] {
      assert tail + (i + 1) == tail + 1 + i;
    }
  }

  lemma RingRound<S>(table: seq<S>, tail: nat, n: nat)
    requires |table| == SIZE
    ensures Ring(table, tail + SIZE, n) == Ring(table, tail, n)
  {
    forall i | 0 <= i < n ensures Ring(table, tail + SIZE, n)[i] == Ring(table, tail, n)[i] {
      assert (tail + SIZE + i) % SIZE == (tail + i) % SIZE;
    }
  }

  /** What a thread may do next, as far as it is not for the program to say. */
  datatype Turn<S> =
    | Accepts(socket: S, canStart: bool, id: int)
    | Looks(id: int)
    | Wakes(id: int, inTime: bool)
    | Ends(id: int)
    | Stirs

  /** The step that a turn is, with the sleepers that its signal lets go. A thread
      to be started has a number that no worker has. */
  function StepOf<S>(s: State<S>, turn: Turn<S>, woken: set<int>): Option<Action<S>> {
    match turn
    case Accepts(x, canStart, id) =>
      if id in s.workers then None
      else Some(MasterTries(x, if canStart && |s.items| < SIZE && StartsOne(s) then {id} else {}, woken))
    case Looks(w) => Some(WorkerTries(w))
    case Wakes(w, inTime) => Some(if inTime then WorkerStirs(w) else WorkerExpires(w))
    case Ends(w) => Some(WorkerEnds(w))
    case Stirs => Some(MasterStirs)
  }

  predicate Takes<S>(s: State<S>, turn: Turn<S>, woken: set<int>) {
    StepOf(s, turn, woken).Some? && Enabled(s, StepOf(s, turn, woken).value)
  }

  ghost predicate CanTake<S>(s: State<S>, turn: Turn<S>) {
    exists woken :: Takes(s, turn, woken)
  }

  /** One turn from `s` to `t`: the step that the turn is, if it can be taken, and
      nothing otherwise. */
  ghost predicate Turned<S>(s: State<S>, turn: Turn<S>, run: seq<Action<S>>, t: State<S>) {
    if CanTake(s, turn) then
      exists woken :: Takes(s, turn, woken) && run == [StepOf(s, turn, woken).value] && t == After(s, run[0])
    else run == [] && t == s
  }

  /** The same turn by turn; `runs` are the steps of each. */
  ghost predicate TurnByTurn<S>(s: State<S>, turns: seq<Turn<S>>, states: seq<State<S>>, runs: seq<seq<Action<S>>>) {
    && |states| == |turns| + 1 && |runs| == |turns| && states[0] == s
    && forall i :: 0 <= i < |turns| ==> Turned(states[i], turns[i], runs[i], states[i + 1])
  }

  lemma TurnedLeads<S>(s: State<S>, turn: Turn<S>, run: seq<Action<S>>, t: State<S>)
    requires Turned(s, turn, run, t)
    ensures Leads(s, run, t)
  {
    if run != [] {
      assert run[1..] == [];
      assert Outcome(t, []) == Some(t);
    }
  }

  lemma OneMoreTurn<S>(s: State<S>, turns: seq<Turn<S>>, states: seq<State<S>>, runs: seq<seq<Action<S>>>,
                       turn: Turn<S>, run: seq<Action<S>>, t: State<S>)
    requires TurnByTurn(s, turns, states, runs) && Turned(states[|turns|], turn, run, t)
    ensures TurnByTurn(s, turns + [turn], states + [t], runs + [run])
  {
    forall i | 0 <= i < |turns + [turn]|
      ensures Turned((states + [t])[i], (turns + [turn])[i], (runs + [run])[i], (states + [t])[i + 1])
    {
      assert i < |turns| ==> Turned(states[i], turns[i], runs[i], states[i + 1]);
    }
  }

  /** So a socket accepted while the master is up goes behind the others, and a
      worker is started for it if none is counted as idle; or the master waits. */
  lemma AcceptTurn<S>(s: State<S>, x: S, canStart: bool, id: int, run: seq<Action<S>>, t: State<S>)
    requires Turned(s, Accepts(x, canStart, id), run, t) && s.master == Up && id !in s.workers
    ensures |s.items| < 20 ==> t.items == s.items + [x] && (canStart && StartsOne(s) <==> id in t.workers)
    ensures |s.items| >= 20 ==> t == s.(master := Asleep)
  {
    assert Takes(s, Accepts(x, canStart, id), if |s.items| < SIZE then Sleepers(s.workers) else {});
  }

  /** And a worker that looks takes the first of them, or waits. */
  lemma LookTurn<S>(s: State<S>, w: int, run: seq<Action<S>>, t: State<S>)
    requires Turned(s, Looks(w), run, t)
    requires At(s.workers, w, Starting) || At(s.workers, w, Busy) || At(s.workers, w, Woken)
    ensures s.items != [] ==>
      s.items == [s.items[0]] + t.items && t.taken == s.taken + [s.items[0]] && At(t.workers, w, Busy)
    ensures s.items == [] ==> t.taken == s.taken && At(t.workers, w, Waiting)
  {
    assert Takes(s, Looks(w), {});
  }

  class Context<S> {
    const limit: int
    const queue: array<S>
    var head: int
    var tail: int
    var numThreads: int
    var numIdle: int
    var workers: map<int, Place>
    var master: Master
    ghost var put: seq<S>
    ghost var taken: seq<S>

    /** Both positions stay small, and apart by no more than the table. */
    ghost predicate Valid()
      reads this, queue
    {
      queue.Length == SIZE && 0 <= tail <= SIZE && tail <= head <= tail + SIZE
    }

    ghost function Abstract(): State<S>
      requires Valid()
      reads this, queue
    {
      State(limit, workers, master, numThreads, numIdle, Ring(queue[..], tail, head - tail), put, taken)
    }

    constructor (limit: int, unused: S)
      ensures Valid() && Initial(Abstract()) && this.limit == limit
    {
      this.limit := limit;
      queue := new S[SIZE](_ => unused);
      head, tail, numThreads, numIdle := 0, 0, 0, 0;
      workers, master, put, taken := map[], Up, [], [];
    }

    method Store(x: S)
      requires Valid() && head - tail < SIZE
      modifies this`head, queue
      ensures Valid() && Ring(queue[..], tail, head - tail) == old(Ring(queue[..], tail, head - tail)) + [x]
    {
      ghost var table := queue[..];
      RingPut(table, tail, head - tail, x);
      queue[head % SIZE] := x;
      assert queue[..] == table[head % SIZE := x];
      head := head + 1;
    }

    method Fetch() returns (x: S)
      requires Valid() && head > tail
      modifies this`head, this`tail
      ensures Valid() && old(Ring(queue[..], tail, head - tail)) == [x] + Ring(queue[..], tail, head - tail)
    {
      ghost var rest := RingTake(queue[..], tail, head - tail);
      x := queue[tail % SIZE];
      tail := tail + 1;
      WrapAround(rest);
    }

    /** Takes whole tables off both positions. */
    method WrapAround(ghost items: seq<S>)
      requires queue.Length == SIZE && 0 <= tail <= SIZE + 1 && tail <= head <= tail + SIZE
      requires Ring(queue[..], tail, head - tail) == items
      modifies this`head, this`tail
      ensures Valid() && Ring(queue[..], tail, head - tail) == items
    {
      while tail > SIZE
        invariant 0 <= tail <= SIZE + 1 && tail <= head <= tail + SIZE
        invariant Ring(queue[..], tail, head - tail) == items
      {
        RingRound(queue[..], tail - SIZE, head - tail);
        tail := tail - SIZE;
        head := head - SIZE;
      }
    }

    /** Which sleepers a signal lets go is not for the program to say. */
    static method Signal(sleepers: set<int>) returns (woken: set<int>)
      ensures woken <= sleepers && (sleepers != {} ==> woken != {})
    {
      assert sleepers <= sleepers;
      woken :| woken <= sleepers && (sleepers != {} ==> woken != {});
    }

    /** The master queues a socket, or finds no room and waits. A thread that
        cannot be started is not counted. */
    method PutSocket(x: S, canStart: bool, id: int) returns (ghost step: Action<S>)
      requires Valid() && master == Up && id !in workers
      modifies this, queue
      ensures Valid() && step.MasterTries? && step.socket == x
      ensures step.newcomers == if canStart && old(head - tail < SIZE && StartsOne(Abstract())) then {id} else {}
      ensures Enabled(old(Abstract()), step) && Abstract() == After(old(Abstract()), step)
    {
      if head - tail >= SIZE {
        master := Asleep;
        return MasterTries(x, {}, {});
      }
      step := QueueSocket(x, canStart, id);
    }

    method QueueSocket(x: S, canStart: bool, id: int) returns (ghost step: Action<S>)
      requires Valid() && master == Up && id !in workers && head - tail < SIZE
      modifies this, queue
      ensures Valid() && step.MasterTries? && step.socket == x
      ensures step.newcomers == if canStart && old(StartsOne(Abstract())) then {id} else {}
      ensures Enabled(old(Abstract()), step) && Abstract() == After(old(Abstract()), step)
    {
      ghost var items := Ring(queue[..], tail, head - tail) + [x];
      Store(x);
      put := put + [x];
      ghost var newcomers, woken := Staff(canStart, id);
      assert Ring(queue[..], tail, head - tail) == items;
      step := MasterTries(x, newcomers, woken);
    }

    /** Starts a worker if none is idle, and signals. */
    method Staff(canStart: bool, id: int) returns (newcomers: set<int>, woken: set<int>)
      requires id !in workers
      modifies this`workers, this`numThreads
      ensures newcomers == if canStart && old(numIdle == 0 && numThreads < limit) then {id} else {}
      ensures |newcomers| == (if newcomers == {} then 0 else 1) && newcomers !! old(workers).Keys
      ensures woken <= Sleepers(old(workers)) && (Sleepers(old(workers)) != {} ==> woken != {})
      ensures numThreads == old(numThreads) + |newcomers| && workers == Wake(Started(old(workers), newcomers), woken)
    {
      newcomers := {};
      if numIdle == 0 && numThreads < limit && canStart {
        newcomers := {id};
        numThreads := numThreads + 1;
      }
      woken := Signal(Sleepers(workers));
      workers := Wake(Started(workers, newcomers), woken);
    }

    /** A worker looks for a socket, on coming or on waking, and waits if there is none. */
    method GetSocket(w: int) returns (got: seq<S>, ghost step: Action<S>)
      requires Valid() && (At(workers, w, Starting) || At(workers, w, Busy) || At(workers, w, Woken))
      modifies this
      ensures Valid() && step == WorkerTries(w) && taken == old(taken) + got
      ensures |got| == if old(head) == old(tail) then 0 else 1
      ensures Enabled(old(Abstract()), step) && Abstract() == After(old(Abstract()), step)
    {
      step := WorkerTries(w);
      if workers[w] != Woken {
        numIdle := numIdle + 1;
      }
      if head == tail {
        workers := workers[w := Waiting];
        got := [];
      } else {
        var x := TakeFirst(w);
        got := [x];
      }
    }

    method TakeFirst(w: int) returns (x: S)
      requires Valid() && head > tail
      modifies this
      ensures Valid() && old(Abstract().items) != []
      ensures var s := old(Abstract());
        && Abstract() == s.(workers := s.workers[w := Busy], numIdle := s.numIdle - 1, master := Up,
                            items := s.items[1..], taken := s.taken + [x])
        && x == s.items[0]
    {
      numIdle := numIdle - 1;
      ghost var rest;
      x, rest := TakeSocket();
      workers, master := workers[w := Busy], Up;
    }

    method TakeSocket() returns (x: S, ghost rest: seq<S>)
      requires Valid() && head > tail
      modifies this`head, this`tail, this`taken
      ensures Valid() && Abstract().items == rest && taken == old(taken) + [x]
      ensures old(Abstract().items) != [] && rest == old(Abstract().items)[1..] && x == old(Abstract().items)[0]
    {
      x := Fetch();
      rest := Ring(queue[..], tail, head - tail);
      taken := taken + [x];
    }

    /** A worker that has timed out ends. */
    method End(w: int) returns (ghost step: Action<S>)
      requires Valid() && At(workers, w, Leaving)
      modifies this`numThreads, this`numIdle, this`workers
      ensures Valid() && step == WorkerEnds(w)
      ensures Enabled(old(Abstract()), step) && Abstract() == After(old(Abstract()), step)
    {
      step := WorkerEnds(w);
      numThreads, numIdle := numThreads - 1, numIdle - 1;
      workers := workers - {w};
    }

    /** A turn of the master or of a worker, which the program takes if it is
        theirs to take: one that is not leaves everything as it is. */
    method Take(turn: Turn<S>) returns (ghost run: seq<Action<S>>)
      requires Valid()
      modifies this, queue
      ensures Valid() && Turned(old(Abstract()), turn, run, Abstract())
    {
      run := [];
      ghost var s := Abstract();
      match turn
      case Accepts(x, canStart, id) =>
        if master == Up && id !in workers {
          ghost var step := PutSocket(x, canStart, id);
          run := [step];
          assert Takes(s, turn, step.woken);
        }
      case Looks(w) =>
        if At(workers, w, Starting) || At(workers, w, Busy) || At(workers, w, Woken) {
          var got;
          ghost var step;
          got, step := GetSocket(w);
          run := [step];
          assert Takes(s, turn, {});
        }
      case Ends(w) =>
        if At(workers, w, Leaving) {
          ghost var step := End(w);
          run := [step];
          assert Takes(s, turn, {});
        }
      case Wakes(w, inTime) =>
        if At(workers, w, Waiting) {
          run := [if inTime then WorkerStirs(w) else WorkerExpires(w)];
          workers := workers[w := if inTime then Woken else Leaving];
          assert Takes(s, turn, {});
        }
      case Stirs =>
        if master == Asleep {
          run := [MasterStirs];
          master := Up;
          assert Takes(s, turn, {});
        }
    }

    /** Whatever turns the threads take on the ring, in whatever order, every one
        that can be taken is, as the step that it is; so they are a run of the
        pool, and from the start the sockets put in have gone out in order up to
        what the ring holds, and both counters are true. */
    method Execute(turns: seq<Turn<S>>)
      returns (ghost states: seq<State<S>>, ghost runs: seq<seq<Action<S>>>, ghost run: seq<Action<S>>)
      requires Valid()
      modifies this, queue
      ensures Valid() && TurnByTurn(old(Abstract()), turns, states, runs) && Abstract() == states[|turns|]
      ensures Leads(old(Abstract()), run, Abstract())
      ensures old(Initial(Abstract())) ==>
        && put == taken + Ring(queue[..], tail, head - tail) && head - tail <= 20
        && numThreads == |workers.Keys| && numIdle == |Idle(workers)|
        && (numThreads <= limit || numThreads == 0)
    {
      ghost var first := Abstract();
      states, runs, run := [first], [], [];
      for i := 0 to |turns|
        invariant Valid() && TurnByTurn(first, turns[..i], states, runs) && Abstract() == states[i]
        invariant Leads(first, run, Abstract())
      {
        ghost var before := Abstract();
        ghost var more := Take(turns[i]);
        TurnedLeads(before, turns[i], more, Abstract());
        LeadsOn(first, run, before, more, Abstract());
        OneMoreTurn(first, turns[..i], states, runs, turns[i], more, Abstract());
        assert turns[..i + 1] == turns[..i] + [turns[i]];
        states, runs, run := states + [Abstract()], runs + [more], run + more;
      }
      assert turns[..|turns|] == turns;
      if Initial(first) {
        EveryRun(first, run, Abstract());
      }
    }
  }
}
