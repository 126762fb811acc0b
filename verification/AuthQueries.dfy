/** The password record of one user behind the queue of the database thread. */
module AuthQueries {
  import opened Options
  import opened Rows
  import opened Authenticate

  // Every access is a query: one that fetches the record; and to store it, one that
  // selects the row and then, at the back of the queue, one that updates it.

  /** A query: the record for some session, the row before an update, which
      carries the record of an accepted session, or the update itself. */
  datatype Query = Fetch(id: int) | Select(record: Record) | Update(record: Record)

  /** Where a session stands: waiting for its record; open; waiting for the
      record as it is now, with a key that answers; told that record and how many
      updates it includes; accepted; or refused. */
  datatype Stage =
    | Starting
    | Open(record: Record)
    | Asking(record: Record, key: Key)
    | Answered(record: Record, key: Key, seen: Record, applied: nat)
    | Granted(record: Record)
    | Refused

  /** `accepts` are the records of the accepted sessions in the order of their
      acceptance, `bases` how many updates the record behind each had seen, and
      `applied` how many updates the stored record includes. */
  datatype State = State(
    first: Record, stored: Record, queue: seq<Query>, sessions: map<int, Stage>,
    accepts: seq<Record>, bases: seq<nat>, applied: nat)

  datatype Action =
    | Begins(id: int)
    | Replies(id: int, key: Key)
    | Fails(id: int)
    | Serves
    | Settles(id: int)

  predicate Enabled(otp: Otp, s: State, a: Action) {
    match a
    case Begins(id) => id !in s.sessions
    case Replies(id, key) => id in s.sessions && s.sessions[id].Open? && Unlocks(otp, s.sessions[id].record, key)
    case Fails(id) => id in s.sessions && s.sessions[id].Open?
    case Serves => s.queue != []
    case Settles(id) => id in s.sessions && s.sessions[id].Answered?
  }

  /** A session is given the record that it waits for. */
  function Handed(s: State, id: int): map<int, Stage> {
    if id !in s.sessions then s.sessions
    else match s.sessions[id]
      case Starting => s.sessions[id := Open(s.stored)]
      case Asking(r, key) => s.sessions[id := Answered(r, key, s.stored, s.applied)]
      case _ => s.sessions
  }

  /** The database thread takes the query at the head of the queue. */
  function Served(s: State): State
    requires s.queue != []
  {
    var rest := s.queue[1..];
    match s.queue[0]
    case Fetch(id) => s.(queue := rest, sessions := Handed(s, id))
    case Select(r) => s.(queue := rest + [Update(r)])
    case Update(r) => s.(queue := rest, stored := r, applied := s.applied + 1)
  }

  /** The state once a record has been accepted. */
  function Grant(s: State, id: int, n: nat, r: Record): State {
    s.(sessions := s.sessions[id := Granted(r)], queue := s.queue + [Select(r)],
      accepts := s.accepts + [r], bases := s.bases + [n])
  }

  /** A session compares the record that it was told with its own. */
  function Settled(otp: Otp, s: State, id: int): State
    requires Enabled(otp, s, Settles(id))
  {
    var d := s.sessions[id];
    if SameRecord(d.seen, d.record) then Grant(s, id, d.applied, Stepped(otp, d.record, d.key))
    else s.(sessions := s.sessions[id := Refused])
  }

  function After(otp: Otp, s: State, a: Action): State
    requires Enabled(otp, s, a)
  {
    match a
    case Begins(id) => s.(sessions := s.sessions[id := Starting], queue := s.queue + [Fetch(id)])
    case Replies(id, key) =>
      s.(sessions := s.sessions[id := Asking(s.sessions[id].record, key)], queue := s.queue + [Fetch(id)])
    case Fails(id) => s.(sessions := s.sessions[id := Refused])
    case Serves => Served(s)
    case Settles(id) => Settled(otp, s, id)
  }

  /** Where a run of steps ends, if each of them can be taken. */
  function Outcome(otp: Otp, s: State, run: seq<Action>): Option<State>
    decreases run
  {
    if run == [] then Some(s)
    else if Enabled(otp, s, run[0]) then Outcome(otp, After(otp, s, run[0]), run[1..]) else None
  }

  predicate Leads(otp: Otp, s: State, run: seq<Action>, t: State) {
    Outcome(otp, s, run) == Some(t)
  }

  predicate Initial(s: State) {
    && s.stored == s.first && s.queue == [] && s.sessions == map[]
    && s.accepts == [] && s.bases == [] && s.applied == 0
  }

  // ----- the updates on their way -----

  function Updates(q: seq<Query>): seq<Record> {
    if q == [] then [] else if q[0].Update? then [q[0].record] + Updates(q[1..]) else Updates(q[1..])
  }

  function Selects(q: seq<Query>): seq<Record> {
    if q == [] then [] else if q[0].Select? then [q[0].record] + Selects(q[1..]) else Selects(q[1..])
  }

  /** The accepted records still to be stored, in the order in which they will be. */
  function Pending(q: seq<Query>): seq<Record> {
    Updates(q) + Selects(q)
  }

  lemma {:induction false} QueueMore(q: seq<Query>, x: Query)
    ensures Updates(q + [x]) == Updates(q) + if x.Update? then [x.record] else []
    ensures Selects(q + [x]) == Selects(q) + if x.Select? then [x.record] else []
    decreases q
  {
    if q == [] {
      assert q + [x] == [x] && [x][1..] == [];
    } else {
      assert (q + [x])[0] == q[0] && (q + [x])[1..] == q[1..] + [x];
      QueueMore(q[1..], x);
    }
  }

  /** The record after the first `n` acceptances. */
  function RecordAt(first: Record, accepts: seq<Record>, n: nat): Record
    requires n <= |accepts|
  {
    if n == 0 then first else accepts[n - 1]
  }

  function Latest(s: State): Record {
    RecordAt(s.first, s.accepts, |s.accepts|)
  }

  /** Every accepted record is one step down the chain from the record behind it. */
  ghost predicate Rooted(otp: Otp, first: Record, accepts: seq<Record>, bases: seq<nat>)
    decreases |accepts|
  {
    |bases| == |accepts| &&
    (accepts != [] ==>
      var n := |accepts| - 1;
      && bases[n] <= n && Follows(otp, RecordAt(first, accepts, bases[n]), accepts[n])
      && Rooted(otp, first, accepts[..n], bases[..n]))
  }

  ghost predicate StageSound(otp: Otp, s: State, d: Stage) {
    match d
    case Open(r) => r.digest == s.first.digest
    case Asking(r, key) => r.digest == s.first.digest && Unlocks(otp, r, key)
    case Answered(r, key, seen, n) =>
      && r.digest == s.first.digest && Unlocks(otp, r, key)
      && n <= s.applied <= |s.accepts| && seen == RecordAt(s.first, s.accepts, n)
    case _ => true
  }

  ghost predicate Sound(otp: Otp, s: State) {
    && s.applied <= |s.accepts| && s.stored == RecordAt(s.first, s.accepts, s.applied)
    && Pending(s.queue) == s.accepts[s.applied..]
    && Rooted(otp, s.first, s.accepts, s.bases)
    && (forall r :: r in s.accepts ==> r.digest == s.first.digest)
    && (forall id :: id in s.sessions ==> StageSound(otp, s, s.sessions[id]))
  }

  lemma RootedMore(otp: Otp, first: Record, accepts: seq<Record>, bases: seq<nat>, n: nat, r: Record)
    requires Rooted(otp, first, accepts, bases) && n <= |accepts| && Follows(otp, RecordAt(first, accepts, n), r)
    ensures Rooted(otp, first, accepts + [r], bases + [n])
  {
    assert (accepts + [r])[..|accepts|] == accepts && (bases + [n])[..|bases|] == bases;
  }

  lemma BeginsKeeps(otp: Otp, s: State, id: int)
    requires Sound(otp, s) && Enabled(otp, s, Begins(id))
    ensures Sound(otp, After(otp, s, Begins(id)))
  {
    QueueMore(s.queue, Fetch(id));
  }

  lemma RepliesKeeps(otp: Otp, s: State, id: int, key: Key)
    requires Sound(otp, s) && Enabled(otp, s, Replies(id, key))
    ensures Sound(otp, After(otp, s, Replies(id, key)))
  {
    QueueMore(s.queue, Fetch(id));
  }

  lemma ServesKeeps(otp: Otp, s: State)
    requires Sound(otp, s) && s.queue != []
    ensures Sound(otp, Served(s))
  {
    PendingServed(s.queue);
    match s.queue[0]
    case Fetch(id) => HandedKeeps(otp, s, id);
    case Select(r) =>
    case Update(r) => UpdateKeeps(otp, s, r);
  }

  /** What a query leaves on its way once it is served. */
  lemma PendingServed(q: seq<Query>)
    requires q != []
    ensures match q[0]
      case Fetch(id) => Pending(q[1..]) == Pending(q)
      case Select(r) => Pending(q[1..] + [Update(r)]) == Pending(q)
      case Update(r) => [r] + Pending(q[1..]) == Pending(q)
  {
    var rest := q[1..];
    match q[0]
    case Fetch(id) =>
    case Select(r) =>
      QueueMore(rest, Update(r));
      Reassociate(Updates(rest), [r], Selects(rest));
      assert Selects(rest) + [] == Selects(rest);
    case Update(r) => Reassociate([r], Updates(rest), Selects(rest));
  }

  lemma HandedKeeps(otp: Otp, s: State, id: int)
    requires Sound(otp, s) && s.queue != [] && s.queue[0] == Fetch(id) && Pending(s.queue[1..]) == Pending(s.queue)
    ensures Sound(otp, Served(s))
  {
    var t := Served(s);
    forall x | x in t.sessions ensures StageSound(otp, t, t.sessions[x]) {
      HandedStage(otp, s, id, x);
    }
  }

  lemma HandedStage(otp: Otp, s: State, id: int, x: int)
    requires Sound(otp, s) && x in s.sessions
    ensures StageSound(otp, s, Handed(s, id)[x])
  {
    StoredIsOurs(s);
    assert StageSound(otp, s, s.sessions[x]);
  }

  lemma UpdateKeeps(otp: Otp, s: State, r: Record)
    requires Sound(otp, s) && s.queue != [] && s.queue[0] == Update(r)
    requires [r] + Pending(s.queue[1..]) == Pending(s.queue)
    ensures Sound(otp, Served(s))
  {
    FirstPending(s.accepts, s.applied, r, Pending(s.queue[1..]));
    var t := Served(s);
    forall x | x in t.sessions ensures StageSound(otp, t, t.sessions[x]) {
      assert StageSound(otp, s, s.sessions[x]);
    }
  }

  lemma FirstPending(accepts: seq<Record>, applied: nat, r: Record, later: seq<Record>)
    requires applied <= |accepts| && [r] + later == accepts[applied..]
    ensures applied < |accepts| && accepts[applied] == r && accepts[applied + 1..] == later
  {
    assert ([r] + later)[0] == r && ([r] + later)[1..] == later;
    assert applied < |accepts| by {
      assert |[r] + later| > 0;
    }
    assert accepts[applied..][0] == accepts[applied] && accepts[applied..][1..] == accepts[applied + 1..];
  }

  lemma StoredIsOurs(s: State)
    requires s.applied <= |s.accepts| && s.stored == RecordAt(s.first, s.accepts, s.applied)
    requires forall r :: r in s.accepts ==> r.digest == s.first.digest
    ensures s.stored.digest == s.first.digest
  {
  }

  lemma SettlesKeeps(otp: Otp, s: State, id: int)
    requires Lawful(otp) && Sound(otp, s) && Enabled(otp, s, Settles(id))
    ensures Sound(otp, Settled(otp, s, id))
  {
    var d := s.sessions[id];
    if SameRecord(d.seen, d.record) {
      SeenIsOwn(otp, s, d);
      SteppedFollows(otp, d.record, d.key);
      GrantKeeps(otp, s, id, d.applied, Stepped(otp, d.record, d.key));
    }
  }

  lemma GrantKeeps(otp: Otp, s: State, id: int, n: nat, r: Record)
    requires Sound(otp, s) && n <= |s.accepts| && Follows(otp, RecordAt(s.first, s.accepts, n), r)
    requires r.digest == s.first.digest
    ensures Sound(otp, Grant(s, id, n, r))
  {
    RootedMore(otp, s.first, s.accepts, s.bases, n, r);
    PendingMore(s.queue, s.accepts, s.applied, r);
    var t := Grant(s, id, n, r);
    forall x | x in t.sessions ensures StageSound(otp, t, t.sessions[x]) {
      assert x != id ==> StageSound(otp, s, s.sessions[x]);
    }
  }

  lemma PendingMore(q: seq<Query>, accepts: seq<Record>, applied: nat, r: Record)
    requires applied <= |accepts| && Pending(q) == accepts[applied..]
    ensures Pending(q + [Select(r)]) == (accepts + [r])[applied..]
  {
    QueueMore(q, Select(r));
    assert (accepts + [r])[applied..] == accepts[applied..] + [r];
    assert Updates(q) + (Selects(q) + [r]) == Pending(q) + [r];
  }

  lemma SeenIsOwn(otp: Otp, s: State, d: Stage)
    requires Sound(otp, s) && d.Answered? && StageSound(otp, s, d) && SameRecord(d.seen, d.record)
    ensures d.seen == d.record && d.applied <= |s.accepts| && d.record == RecordAt(s.first, s.accepts, d.applied)
  {
    assert d.applied > 0 ==> d.seen in s.accepts;
  }

  lemma StepKeepsSound(otp: Otp, s: State, a: Action)
    requires Lawful(otp) && Sound(otp, s) && Enabled(otp, s, a)
    ensures Sound(otp, After(otp, s, a))
  {
    match a
    case Begins(id) => BeginsKeeps(otp, s, id);
    case Replies(id, key) => RepliesKeeps(otp, s, id, key);
    case Fails(id) =>
    case Serves => ServesKeeps(otp, s);
    case Settles(id) => SettlesKeeps(otp, s, id);
  }

  lemma {:induction false} RunKeepsSound(otp: Otp, s: State, run: seq<Action>, t: State)
    requires Lawful(otp) && Sound(otp, s) && Leads(otp, s, run, t)
    ensures Sound(otp, t) && t.first == s.first
    decreases run
  {
    if run != [] {
      StepKeepsSound(otp, s, run[0]);
      RunKeepsSound(otp, After(otp, s, run[0]), run[1..], t);
    }
  }

  // ----- the hash chain -----

  /** Each record was accepted on top of all those accepted before it. */
  predicate OnTop(bases: seq<nat>)
    decreases |bases|
  {
    bases == [] || (bases[|bases| - 1] == |bases| - 1 && OnTop(bases[..|bases| - 1]))
  }

  /** No record is further down the chain than there were acceptances. */
  lemma {:induction false} NotTooDeep(otp: Otp, first: Record, accepts: seq<Record>, bases: seq<nat>, n: nat)
    requires Rooted(otp, first, accepts, bases) && n <= |accepts|
    ensures RecordAt(first, accepts, n).count >= first.count - n
    decreases |accepts|
  {
    if n > 0 {
      var last := |accepts| - 1;
      if n <= last {
        NotTooDeep(otp, first, accepts[..last], bases[..last], n);
      } else {
        NotTooDeep(otp, first, accepts[..last], bases[..last], bases[last]);
      }
    }
  }

  /** The last record is as far down as there were acceptances exactly when each
      was accepted on top of all before it; then the chain leads back. */
  lemma {:induction false} DeepExactly(otp: Otp, first: Record, accepts: seq<Record>, bases: seq<nat>)
    requires Rooted(otp, first, accepts, bases)
    ensures var now := RecordAt(first, accepts, |accepts|);
      && (now.count == first.count - |accepts| <==> OnTop(bases))
      && (Descends(otp, first, |accepts|, now) <==> OnTop(bases))
    decreases |accepts|
  {
    if accepts != [] {
      var last := |accepts| - 1;
      DeepExactly(otp, first, accepts[..last], bases[..last]);
      if bases[last] < last {
        NotTooDeep(otp, first, accepts, bases, bases[last]);
      } else if OnTop(bases[..last]) {
        var before := RecordAt(first, accepts, last);
        DescendsOn(otp, first, last, before, accepts[last]);
      }
    }
  }

  /** If a step accepts a session, the record that it was told included the
      updates of all acceptances before it. */
  predicate TimelyStep(s: State, a: Action) {
    a.Settles? && a.id in s.sessions && s.sessions[a.id].Answered?
      && SameRecord(s.sessions[a.id].seen, s.sessions[a.id].record) ==>
      s.sessions[a.id].applied == |s.accepts|
  }

  predicate InTime(otp: Otp, s: State, run: seq<Action>)
    decreases run
  {
    run != [] && Enabled(otp, s, run[0]) ==> TimelyStep(s, run[0]) && InTime(otp, After(otp, s, run[0]), run[1..])
  }

  lemma StepOnTop(otp: Otp, s: State, a: Action)
    requires |s.bases| == |s.accepts| && Enabled(otp, s, a)
    ensures var next := After(otp, s, a);
      |next.bases| == |next.accepts| && (OnTop(next.bases) <==> OnTop(s.bases) && TimelyStep(s, a))
  {
    var next := After(otp, s, a);
    if next.bases != s.bases {
      assert next.bases[..|s.bases|] == s.bases;
    }
  }

  lemma {:induction false} InTimeIsOnTop(otp: Otp, s: State, run: seq<Action>, t: State)
    requires |s.bases| == |s.accepts| && Leads(otp, s, run, t)
    ensures OnTop(s.bases) && InTime(otp, s, run) <==> OnTop(t.bases)
    decreases run
  {
    if run != [] {
      StepOnTop(otp, s, run[0]);
      InTimeIsOnTop(otp, After(otp, s, run[0]), run[1..], t);
    }
  }

  lemma InitialIsSound(otp: Otp, s: State)
    requires Initial(s)
    ensures Sound(otp, s)
  {
  }

  /** Over any run of sessions, replies and queries in whatever order: hashing the
      key of the last accepted record as often as there were acceptances gives
      the first key, and the count has gone down by as many, exactly when every
      acceptance rests on a record read after the update of every acceptance
      before it. Once no update is on its way, that record is the stored one. */
  lemma ChainExactly(otp: Otp, s: State, run: seq<Action>, t: State)
    requires Lawful(otp) && Initial(s) && Leads(otp, s, run, t)
    ensures Descends(otp, s.first, |t.accepts|, Latest(t)) <==> InTime(otp, s, run)
    ensures Latest(t).count == s.first.count - |t.accepts| <==> InTime(otp, s, run)
    ensures Pending(t.queue) == [] ==> t.stored == Latest(t)
  {
    InitialIsSound(otp, s);
    RunKeepsSound(otp, s, run, t);
    DeepExactly(otp, t.first, t.accepts, t.bases);
    InTimeIsOnTop(otp, s, run, t);
  }

  // ----- one reply, accepted twice -----

  lemma {:induction false} LeadsOn(otp: Otp, s: State, run: seq<Action>, t: State, a: Action)
    requires Leads(otp, s, run, t) && Enabled(otp, t, a)
    ensures Leads(otp, s, run + [a], After(otp, t, a))
    decreases run
  {
    if run == [] {
      assert run + [a] == [a] && [a][1..] == [];
    } else {
      assert (run + [a])[0] == run[0] && (run + [a])[1..] == run[1..] + [a];
      LeadsOn(otp, After(otp, s, run[0]), run[1..], t, a);
    }
  }

  /** Some run of steps leads there. */
  ghost predicate Reaches(otp: Otp, s: State, t: State) {
    exists run :: Leads(otp, s, run, t)
  }

  lemma Stays(otp: Otp, s: State)
    ensures Reaches(otp, s, s)
  {
    assert Leads(otp, s, [], s);
  }

  lemma Then(otp: Otp, s: State, t: State, a: Action) returns (next: State)
    requires Reaches(otp, s, t) && Enabled(otp, t, a)
    ensures next == After(otp, t, a) && Reaches(otp, s, next)
  {
    next := After(otp, t, a);
    var run :| Leads(otp, s, run, t);
    LeadsOn(otp, s, run, t, a);
  }

  /** A session opens while no other query waits. */
  lemma Opens(otp: Otp, s: State, t0: State, id: int) returns (t: State)
    requires Reaches(otp, s, t0) && id !in t0.sessions && t0.queue == []
    ensures Reaches(otp, s, t) && t == t0.(sessions := t0.sessions[id := Open(t0.stored)])
  {
    t := Then(otp, s, t0, Begins(id));
    t := Then(otp, s, t, Serves);
    assert t0.sessions[id := Starting][id := Open(t0.stored)] == t0.sessions[id := Open(t0.stored)];
  }

  /** A session is accepted while no other query waits. */
  lemma GetsAccepted(otp: Otp, s: State, t0: State, id: int, key: Key) returns (t: State)
    requires Reaches(otp, s, t0) && t0.queue == [] && id in t0.sessions
    requires t0.sessions[id] == Open(t0.stored) && Unlocks(otp, t0.stored, key)
    ensures var r := Stepped(otp, t0.stored, key);
      Reaches(otp, s, t) && t == t0.(sessions := t0.sessions[id := Granted(r)], queue := [Select(r)],
        accepts := t0.accepts + [r], bases := t0.bases + [t0.applied])
  {
    t := Then(otp, s, t0, Replies(id, key));
    t := Then(otp, s, t, Serves);
    t := Then(otp, s, t, Settles(id));
  }

  lemma BothOpen(otp: Otp, s: State, c: int, d: int) returns (t: State)
    requires Initial(s) && c != d
    ensures Reaches(otp, s, t) && t == s.(sessions := map[c := Open(s.first), d := Open(s.first)])
  {
    Stays(otp, s);
    t := Opens(otp, s, s, c);
    t := Opens(otp, s, t, d);
  }

  lemma OneAccepted(otp: Otp, s: State, c: int, d: int, key: Key) returns (t: State)
    requires Initial(s) && c != d && Unlocks(otp, s.first, key)
    ensures var r := Stepped(otp, s.first, key);
      && Reaches(otp, s, t) && t.first == t.stored == s.first && t.queue == [Select(r)]
      && t.sessions == map[c := Granted(r), d := Open(s.first)] && t.accepts == [r] && t.bases == [0] && t.applied == 0
  {
    t := BothOpen(otp, s, c, d);
    t := GetsAccepted(otp, s, t, c, key);
  }

  /** Two sessions of a user are given the same good reply. The second one reads
      the record while the update of the first is on its way, so both are
      accepted: the count goes down by one, and the key hashes back once. */
  lemma AcceptedTwice(otp: Otp, s: State, c: int, d: int, key: Key) returns (t: State)
    requires Initial(s) && c != d && Unlocks(otp, s.first, key)
    ensures Reaches(otp, s, t) && t.queue == [] && |t.accepts| == 2
    ensures t.stored == Stepped(otp, s.first, key) && !Descends(otp, s.first, 2, t.stored)
  {
    var r := Stepped(otp, s.first, key);
    t := OneAccepted(otp, s, c, d, key);
    t := Then(otp, s, t, Replies(d, key));
    t := ReadsTooEarly(otp, s, t, d, r);
    t := Then(otp, s, t, Settles(d));
    assert t.accepts == [r, r];
    t := Flushes(otp, s, t, r);
  }

  /** The read is served before the update that it should have waited for. */
  lemma ReadsTooEarly(otp: Otp, s: State, t0: State, d: int, r: Record) returns (t: State)
    requires Reaches(otp, s, t0) && t0.queue == [Select(r), Fetch(d)]
    ensures Reaches(otp, s, t) && t == t0.(sessions := Handed(t0, d), queue := [Update(r)])
  {
    t := Then(otp, s, t0, Serves);
    assert t.queue == [Fetch(d), Update(r)];
    t := Then(otp, s, t, Serves);
  }

  /** Both updates are applied. */
  lemma Flushes(otp: Otp, s: State, t0: State, r: Record) returns (t: State)
    requires Reaches(otp, s, t0) && t0.queue == [Update(r), Select(r)]
    ensures Reaches(otp, s, t) && t == t0.(queue := [], stored := r, applied := t0.applied + 2)
  {
    t := Then(otp, s, t0, Serves);
    assert t.queue == [Select(r)];
    t := Then(otp, s, t, Serves);
    assert t.queue == [Update(r)];
    t := Then(otp, s, t, Serves);
  }
}
