/** One-time passwords: replies, sessions, and the sweep over them. */
module Authenticate {
  import opened Options
  import opened Rows
  import opened LinkedLists

  type Key = s: seq<int> | |s| == 8 witness [0, 0, 0, 0, 0, 0, 0, 0]

  /** The conversions and the hash of the password library: words and
      hexadecimal text to keys, a key to text, and one step of the hash chain. */
  datatype Otp = Otp(words: string -> Option<Key>, hex: string -> Option<Key>, text: Key -> string,
                     hash: (nat, Key) -> Key)

  ghost predicate Lawful(otp: Otp) {
    forall k :: otp.hex(otp.text(k)) == Some(k)
  }

  datatype Record = Record(digest: string, seed: string, count: int, hash: string)

  datatype State = Challenge | Accepted | Rejected | TimedOut | Disconnect

  // ----- replies -----

  function Lower(c: char): char {
    if 'A' <= c <= 'Z' then c - 'A' + 'a' else c
  }

  predicate SameText(a: string, b: string) {
    |a| == |b| && forall i :: 0 <= i < |a| ==> Lower(a[i]) == Lower(b[i])
  }

  /** The names of the hash functions by number; the first numbers have none. */
  const ALGORITHMS: seq<string> := ["", "", "", "sha1", "md4", "md5"]

  /** The number of a hash function, whatever the case of its name. */
  function Algorithm(digest: string): (alg: Option<nat>)
    ensures alg.Some? ==> alg.value < 6 && SameText(ALGORITHMS[alg.value], digest)
  {
    AlgorithmFrom(digest, 3)
  }

  function AlgorithmFrom(digest: string, i: nat): (alg: Option<nat>)
    requires i <= 6
    ensures alg.Some? ==> i <= alg.value < 6 && SameText(ALGORITHMS[alg.value], digest)
    decreases 6 - i
  {
    if i == 6 then None else if SameText(ALGORITHMS[i], digest) then Some(i) else AlgorithmFrom(digest, i + 1)
  }

  method FindAlgorithm(digest: string) returns (alg: Option<nat>)
    ensures alg == Algorithm(digest)
  {
    alg := None;
    var i := 3;
    while i < 6 && alg.None?
      invariant 3 <= i <= 6
      invariant Algorithm(digest) == if alg.None? then AlgorithmFrom(digest, i) else alg
    {
      if SameText(ALGORITHMS[i], digest) {
        alg := Some(i);
      }
      i := i + 1;
    }
  }

  function Colon(s: string): (i: nat)
    ensures i <= |s| && (i < |s| ==> s[i] == ':')
  {
    if s == "" || s[0] == ':' then 0 else 1 + Colon(s[1..])
  }

  predicate HasPrefix(response: string) {
    Colon(response) < |response|
  }

  function Prefix(response: string): string {
    response[..Colon(response)]
  }

  function Body(response: string): string
    requires HasPrefix(response)
  {
    response[Colon(response) + 1..]
  }

  /** A reply that carries a new challenge, which the model does not follow. */
  predicate Reinitialises(response: string) {
    HasPrefix(response) && (Prefix(response) == "init-hex" || Prefix(response) == "init-word")
  }

  /** The keys that a reply may mean. One without a prefix, or with an empty one,
      is what stands before the colon, as words or else in hexadecimal. */
  function Readings(otp: Otp, response: string): seq<Option<Key>> {
    if !HasPrefix(response) || Prefix(response) == "" then [otp.words(Prefix(response)), otp.hex(Prefix(response))]
    else if Prefix(response) == "word" then [otp.words(Body(response))]
    else if Prefix(response) == "hex" then [otp.hex(Body(response))]
    else []
  }

  /** A key that hashes to the last one. */
  predicate Fits(otp: Otp, alg: nat, last: Key, reading: Option<Key>) {
    reading.Some? && otp.hash(alg, reading.value) == last
  }

  /** The key of a record, if the hash function and the stored text are known. */
  function Stored(otp: Otp, r: Record): Option<Key> {
    if Algorithm(r.digest).None? then None else otp.hex(r.hash)
  }

  ghost predicate Answers(otp: Otp, r: Record, response: string) {
    Stored(otp, r).Some? &&
    var alg, last := Algorithm(r.digest).value, Stored(otp, r).value;
    exists reading :: reading in Readings(otp, response) && Fits(otp, alg, last, reading)
  }

  /** A key that hashes to the one stored. */
  predicate Unlocks(otp: Otp, r: Record, key: Key) {
    Stored(otp, r).Some? && otp.hash(Algorithm(r.digest).value, key) == Stored(otp, r).value
  }

  lemma {:induction false} ColonAt(w: string, rest: string)
    requires ':' !in w
    ensures Colon(w) == |w| && Colon(w + ":" + rest) == |w|
  {
    if w == "" {
      assert ("" + ":" + rest)[0] == ':';
    } else {
      assert (w + ":" + rest)[1..] == w[1..] + ":" + rest && (w + ":" + rest)[0] == w[0];
      ColonAt(w[1..], rest);
    }
  }

  /** A reading that unlocks the record. */
  predicate Opens(otp: Otp, r: Record, reading: Option<Key>) {
    reading.Some? && Unlocks(otp, r, reading.value)
  }

  /** A reply without a colon is right if it unlocks the record as words or in
      hexadecimal. */
  lemma PlainReply(otp: Otp, r: Record, w: string)
    requires ':' !in w
    ensures Answers(otp, r, w) <==> Opens(otp, r, otp.words(w)) || Opens(otp, r, otp.hex(w))
  {
    ColonAt(w, "");
    assert w[..|w|] == w;
    assert otp.words(w) in Readings(otp, w) && otp.hex(w) in Readings(otp, w);
  }

  /** With a colon, what stands before it says how the rest is to be read, but if
      that is nothing then nothing is read. An unknown word makes the reply wrong,
      even one that would have been right by itself. */
  lemma PrefixedReply(otp: Otp, r: Record, w: string, rest: string)
    requires ':' !in w && w != "init-hex" && w != "init-word"
    ensures Answers(otp, r, w + ":" + rest) <==>
      || (w == "word" && Opens(otp, r, otp.words(rest)))
      || (w == "hex" && Opens(otp, r, otp.hex(rest)))
      || (w == "" && (Opens(otp, r, otp.words("")) || Opens(otp, r, otp.hex(""))))
  {
    var reply := w + ":" + rest;
    ColonAt(w, rest);
    assert Prefix(reply) == w && Body(reply) == rest;
    if w == "word" {
      assert otp.words(rest) in Readings(otp, reply);
    } else if w == "hex" {
      assert otp.hex(rest) in Readings(otp, reply);
    } else if w == "" {
      assert otp.words("") in Readings(otp, reply) && otp.hex("") in Readings(otp, reply);
    }
  }

  /** So a key that unlocks the record is accepted by its hexadecimal text. */
  lemma HexReply(otp: Otp, r: Record, key: Key)
    requires Lawful(otp) && Unlocks(otp, r, key)
    ensures Answers(otp, r, "hex:" + otp.text(key))
    ensures ':' !in otp.text(key) ==> Answers(otp, r, otp.text(key))
  {
    PrefixedReply(otp, r, "hex", otp.text(key));
    assert "hex" + ":" + otp.text(key) == "hex:" + otp.text(key);
    if ':' !in otp.text(key) {
      PlainReply(otp, r, otp.text(key));
    }
  }

  lemma WordReply(otp: Otp, r: Record, key: Key, w: string)
    requires otp.words(w) == Some(key) && Unlocks(otp, r, key)
    ensures Answers(otp, r, "word:" + w)
    ensures ':' !in w ==> Answers(otp, r, w)
  {
    PrefixedReply(otp, r, "word", w);
    assert "word" + ":" + w == "word:" + w;
    if ':' !in w {
      PlainReply(otp, r, w);
    }
  }

  /** Letters are the same in either case, and all else only as it is. */
  lemma SameLetter(a: char, b: char)
    ensures SameText([a], [b]) <==>
      || a == b
      || (0x41 <= a as int <= 0x5A && b as int == a as int + 0x20)
      || (0x41 <= b as int <= 0x5A && a as int == b as int + 0x20)
  {
    assert SameText([a], [b]) <==> Lower([a][0]) == Lower([b][0]);
  }

  /** The hash functions that a record may name. */
  lemma AlgorithmExactly(digest: string)
    ensures Algorithm(digest) ==
      if SameText("sha1", digest) then Some(3) else if SameText("md4", digest) then Some(4)
      else if SameText("md5", digest) then Some(5) else None
  {
    assert AlgorithmFrom(digest, 6) == None;
    assert AlgorithmFrom(digest, 5) == if SameText("md5", digest) then Some(5) else None;
    assert AlgorithmFrom(digest, 4) == if SameText("md4", digest) then Some(4) else AlgorithmFrom(digest, 5);
  }

  /** The comparison leaves the name of the hash function out. */
  predicate SameRecord(a: Record, b: Record) {
    a.count == b.count && a.hash == b.hash && a.seed == b.seed
  }

  /** The record once a key has been accepted. */
  function Stepped(otp: Otp, r: Record, key: Key): Record {
    r.(count := r.count - 1, hash := otp.text(key))
  }

  /** Finds the key that answers, as the kinds of replies are tried. */
  method FindKey(otp: Otp, alg: nat, last: Key, response: string) returns (key: Option<Key>)
    requires !Reinitialises(response)
    ensures key.Some? ==> otp.hash(alg, key.value) == last && key in Readings(otp, response)
    ensures key.None? ==> forall reading :: reading in Readings(otp, response) ==> !Fits(otp, alg, last, reading)
  {
    var prefix := Prefix(response);
    key := None;
    if !HasPrefix(response) || prefix == "" {
      key := otp.words(prefix);
      if !Fits(otp, alg, last, key) {
        key := otp.hex(prefix);
      }
    } else if prefix == "word" {
      key := otp.words(Body(response));
    } else if prefix == "hex" {
      key := otp.hex(Body(response));
    }
    if !Fits(otp, alg, last, key) {
      key := None;
    }
  }

  // ----- sessions and the records they were started from -----

  function Judged(verified: bool): State {
    if verified then Accepted else Rejected
  }

  function JudgedUntil(verified: bool, now: int): int {
    if verified then now + 30 * 60 else now
  }

  class Database {
    var records: map<string, Record>
  }

  class Session {
    const server: int
    const nick: string
    var record: Record
    var state: State
    var wakeTime: int

    constructor (server: int, nick: string, record: Record, wakeTime: int)
      ensures this.server == server && this.nick == nick && this.record == record
      ensures state == Challenge && this.wakeTime == wakeTime
    {
      this.server, this.nick, this.record := server, nick, record;
      state, this.wakeTime := Challenge, wakeTime;
    }

    /** The verdict on the reply to a challenge. */
    method Judge(verified: bool, now: int)
      modifies this`state, this`wakeTime
      ensures state == Judged(verified) && wakeTime == JudgedUntil(verified, now)
    {
      if verified {
        state := Accepted;
        wakeTime := now + 30 * 60;
      } else {
        state := Rejected;
        wakeTime := now;
      }
    }

    method LogOff(now: int)
      modifies this`state, this`wakeTime
      ensures state == Disconnect && wakeTime == now + 5
    {
      state := Disconnect;
      wakeTime := now + 5;
    }

    /** Whether the sweep has to mark a session as timed out. */
    predicate Due(now: int)
      reads this`state, this`wakeTime
    {
      wakeTime != 0 && wakeTime <= now && state != Rejected
    }

    /** Whether the stored record is another one than the session was started from. */
    predicate Changed(db: Database, name: string)
      reads this`record, db
    {
      name !in db.records || !SameRecord(db.records[name], record)
    }

    /** What verification does before it asks the database. */
    method Check(otp: Otp, response: string) returns (key: Option<Key>)
      requires !Reinitialises(response)
      ensures key.Some? <==> Answers(otp, record, response)
      ensures key.Some? ==> Unlocks(otp, record, key.value)
    {
      var alg := FindAlgorithm(record.digest);
      if alg.None? {
        return None;
      }
      var last := otp.hex(record.hash);
      if last.None? {
        return None;
      }
      key := FindKey(otp, alg.value, last.value, response);
    }

    /** What it does with the record that the database gave. */
    method Settle(otp: Otp, key: Key, seen: Option<Record>) returns (ok: bool)
      modifies this`record
      ensures ok == (seen.Some? && SameRecord(seen.value, old(record)))
      ensures record == if ok then Stepped(otp, old(record), key) else old(record)
    {
      ok := seen.Some? && SameRecord(seen.value, record);
      if ok {
        record := Stepped(otp, record, key);
      }
    }

    /** The whole of it, when nothing else reaches the database meanwhile. A reply
        is accepted exactly when it answers a record that has not changed since
        the session was started; then the key takes the place of the stored one
        and the count goes down. A reply that is not accepted changes nothing. */
    method Verify(otp: Otp, db: Database, name: string, response: string) returns (ok: bool)
      requires Lawful(otp) && !Reinitialises(response)
      modifies this`record, db
      ensures ok == old(Answers(otp, record, response) && !Changed(db, name))
      ensures !ok ==> record == old(record) && db.records == old(db.records)
      ensures ok ==> db.records == old(db.records)[name := record] && Follows(otp, old(record), record)
    {
      var key := Check(otp, response);
      if key.None? {
        return false;
      }
      var seen := if name in db.records then Some(db.records[name]) else None;
      SteppedFollows(otp, record, key.value);
      ok := Settle(otp, key.value, seen);
      if ok {
        db.records := db.records[name := record];
      }
    }
  }

  /** A record one step down the hash chain from another. */
  ghost predicate Follows(otp: Otp, before: Record, after: Record) {
    && after.digest == before.digest && after.seed == before.seed && after.count == before.count - 1
    && Stored(otp, before).Some? && Stored(otp, after).Some?
    && otp.hash(Algorithm(before.digest).value, Stored(otp, after).value) == Stored(otp, before).value
  }

  lemma SteppedFollows(otp: Otp, r: Record, key: Key)
    requires Lawful(otp) && Unlocks(otp, r, key)
    ensures Follows(otp, r, Stepped(otp, r, key))
  {
    assert otp.hex(otp.text(key)) == Some(key);
  }

  // ----- the hash chain -----

  function HashTimes(otp: Otp, alg: nat, n: nat, key: Key): Key {
    if n == 0 then key else otp.hash(alg, HashTimes(otp, alg, n - 1, key))
  }

  lemma {:induction false} HashTimesInside(otp: Otp, alg: nat, n: nat, key: Key)
    ensures HashTimes(otp, alg, n, otp.hash(alg, key)) == HashTimes(otp, alg, n + 1, key)
  {
    if n > 0 {
      HashTimesInside(otp, alg, n - 1, key);
    }
  }

  /** `n` acceptances lead from one record to the other. */
  ghost predicate Descends(otp: Otp, first: Record, n: nat, now: Record) {
    && now.digest == first.digest && now.seed == first.seed && now.count == first.count - n
    && (Stored(otp, first).Some? ==> Stored(otp, now).Some?)
    && (Stored(otp, first).Some? ==>
      HashTimes(otp, Algorithm(first.digest).value, n, Stored(otp, now).value) == Stored(otp, first).value)
    && (Stored(otp, first).None? ==> now == first)
  }

  lemma DescendsOn(otp: Otp, first: Record, n: nat, before: Record, after: Record)
    requires Descends(otp, first, n, before) && Follows(otp, before, after)
    ensures Descends(otp, first, n + 1, after)
  {
    HashTimesInside(otp, Algorithm(first.digest).value, n, Stored(otp, after).value);
  }

  /** Any run of replies to any number of sessions of one user, some of them
      perhaps stale: after `k` acceptances hashing the stored key `k` times gives
      the first key again, and the count has gone down by `k`. */
  method Replies(otp: Otp, db: Database, name: string, sessions: seq<Session>, replies: seq<(nat, string)>)
    returns (k: nat)
    requires Lawful(otp) && name in db.records
    requires forall i :: 0 <= i < |sessions| ==> sessions[i].record.digest == db.records[name].digest
    requires forall i :: 0 <= i < |replies| ==> replies[i].0 < |sessions| && !Reinitialises(replies[i].1)
    modifies db, Elements(sessions)`record
    ensures name in db.records && Descends(otp, old(db.records[name]), k, db.records[name])
    ensures db.records == old(db.records)[name := db.records[name]] && k <= |replies|
  {
    k := 0;
    ghost var first := db.records[name];
    for i := 0 to |replies|
      invariant k <= i && name in db.records && Descends(otp, first, k, db.records[name])
      invariant db.records == old(db.records)[name := db.records[name]]
      invariant forall j :: 0 <= j < |sessions| ==> sessions[j].record.digest == first.digest
    {
      var s := sessions[replies[i].0];
      ghost var before := db.records[name];
      var ok := s.Verify(otp, db, name, replies[i].1);
      if ok {
        DescendsOn(otp, first, k, before, db.records[name]);
        k := k + 1;
      }
    }
  }

  // ----- sessions -----

  predicate IsEnded(state: State) {
    state == Rejected || state == TimedOut || state == Disconnect
  }

  /** A session that a sweep at some time takes away. */
  predicate Over(s: Session, now: int)
    reads s`state, s`wakeTime
  {
    IsEnded(s.state) || (s.wakeTime != 0 && s.wakeTime <= now)
  }

  /** The living are as they were, and of the others those already seen have ended. */
  ghost predicate LivingUntouched(all: set<Session>, rest: set<Session>, alive: set<Session>, now: int,
                                  states: map<Session, State>)
    reads all`state, all`wakeTime
  {
    && all <= states.Keys
    && forall s :: s in all ==>
      if s in alive then !Over(s, now) && s.state == states[s] else Over(s, now) && (s in rest || IsEnded(s.state))
  }

  /** A session whose time is up is marked. */
  method MarkLate(auth: Session, now: int)
    modifies auth`state
    ensures IsEnded(auth.state) == Over(auth, now) && Over(auth, now) == old(Over(auth, now))
    ensures !Over(auth, now) ==> auth.state == old(auth.state)
  {
    if auth.Due(now) {
      auth.state := TimedOut;
    }
  }

  /** One turn of the walk: a session whose time is up is marked, and one that
      has ended is taken out. */
  method SweepTurn(list: LinkedList<Session>, at: Item<Session>, before: Item?<Session>, now: int,
                   ghost kept: seq<Session>, ghost rest: seq<Session>)
    returns (prev: Item?<Session>, item: Item?<Session>, ghost more: seq<Session>, ghost left: seq<Session>)
    requires list.Valid() && Walked(list, kept, rest, before, at)
    requires rest != [] && at.data == rest[0]
    modifies list`head, list`tail, list`items, at.data`state
    modifies Elements(list.items)`prev, Elements(list.items)`next, Elements(list.items)`list
    ensures list.Valid() && Elements(list.items) <= old(Elements(list.items))
    ensures more == (if IsEnded(at.data.state) then kept else kept + [at.data]) && left == rest[1..]
    ensures Walked(list, more, left, prev, item)
    ensures IsEnded(at.data.state) == Over(at.data, now) && Over(at.data, now) == old(Over(at.data, now))
    ensures !Over(at.data, now) ==> at.data.state == old(at.data.state)
  {
    WalkGoesOn(list, kept, rest, before, at);
    MarkLate(at.data, now);
    prev, item, more, left := list.WalkOn(at, before, IsEnded(at.data.state), kept, rest);
  }

  /** One turn as seen from the whole list: of all its sessions, the living are
      picked, and the others are marked as they are passed. */
  method SweepOne(list: LinkedList<Session>, at: Item<Session>, before: Item?<Session>, now: int,
                  ghost kept: seq<Session>, ghost rest: seq<Session>,
                  ghost all: set<Session>, ghost alive: set<Session>, ghost states: map<Session, State>,
                  ghost picked: seq<Session>)
    returns (prev: Item?<Session>, item: Item?<Session>, ghost more: seq<Session>, ghost left: seq<Session>)
    requires list.Valid() && Walked(list, kept, rest, before, at) && Elements(rest) <= all
    requires LivingUntouched(all, Elements(rest), alive, now, states) && kept + Pick(rest, alive) == picked
    modifies list`head, list`tail, list`items, all`state
    modifies Elements(list.items)`prev, Elements(list.items)`next, Elements(list.items)`list
    ensures list.Valid() && Elements(list.items) <= old(Elements(list.items))
    ensures |left| < |rest| && Elements(left) <= all && Walked(list, more, left, prev, item)
    ensures LivingUntouched(all, Elements(left), alive, now, states) && more + Pick(left, alive) == picked
  {
    WalkGoesOn(list, kept, rest, before, at);
    ElementsFirst(rest);
    assert Over(at.data, now) == (at.data !in alive);
    PickFirst(kept, rest, alive, picked);
    prev, item, more, left := SweepTurn(list, at, before, now, kept, rest);
  }

  lemma ElementsFirst(s: seq<Session>)
    requires s != []
    ensures Elements(s) == {s[0]} + Elements(s[1..])
  {
    assert s == [s[0]] + s[1..];
  }

  lemma PickFirst(kept: seq<Session>, rest: seq<Session>, alive: set<Session>, picked: seq<Session>)
    requires rest != [] && kept + Pick(rest, alive) == picked
    ensures (if rest[0] in alive then kept + [rest[0]] else kept) + Pick(rest[1..], alive) == picked
  {
    if rest[0] in alive {
      Reassociate(kept, [rest[0]], Pick(rest[1..], alive));
    } else {
      assert [] + Pick(rest[1..], alive) == Pick(rest[1..], alive);
    }
  }

  lemma AllLeft(s: seq<Session>)
    ensures [] + s == s
  {
  }

  lemma NoneLeft(list: LinkedList<Session>, kept: seq<Session>, rest: seq<Session>, prev: Item?<Session>,
                 alive: set<Session>, picked: seq<Session>)
    requires Walked(list, kept, rest, prev, null) && kept + Pick(rest, alive) == picked
    ensures Elements(rest) == {} && list.Values() == picked
  {
    WalkEnds(list, kept, rest, prev);
    assert kept + [] == kept;
  }

  /** Takes away exactly the sessions that have ended or whose time is up, and
      leaves the others as they are and in order. */
  method Sweep(list: LinkedList<Session>, now: int, ghost all: set<Session>, ghost alive: set<Session>,
               ghost states: map<Session, State>, ghost picked: seq<Session>)
    requires list.Valid() && all == Elements(list.Values()) && LivingUntouched(all, all, alive, now, states)
    requires picked == Pick(list.Values(), alive)
    modifies list`head, list`tail, list`items, all`state
    modifies Elements(list.items)`prev, Elements(list.items)`next, Elements(list.items)`list
    ensures list.Valid() && Elements(list.items) <= old(Elements(list.items))
    ensures list.Values() == picked && LivingUntouched(all, {}, alive, now, states)
  {
    ghost var kept: seq<Session>, rest: seq<Session> := [], list.Values();
    var prev: Item?<Session>, item := null, list.head;
    WalkStarts(list);
    AllLeft(picked);
    while item != null
      invariant list.Valid() && Elements(list.items) <= old(Elements(list.items))
      invariant Walked(list, kept, rest, prev, item) && Elements(rest) <= all
      invariant LivingUntouched(all, Elements(rest), alive, now, states) && kept + Pick(rest, alive) == picked
      decreases |rest|
    {
      prev, item, kept, rest := SweepOne(list, item, prev, now, kept, rest, all, alive, states, picked);
    }
    NoneLeft(list, kept, rest, prev, alive, picked);
  }

  // ----- the state machine -----

  predicate Matches(s: Session, server: int, nick: string) {
    s.server == server && SameText(nick, s.nick)
  }

  function FirstMatch(all: seq<Session>, server: int, nick: string): (s: Session?)
    ensures s != null ==> s in all && s.server == server && SameText(nick, s.nick)
    ensures s == null ==> forall x :: x in all ==> !(x.server == server && SameText(nick, x.nick))
  {
    if all == [] then null else if Matches(all[0], server, nick) then all[0] else FirstMatch(all[1..], server, nick)
  }

  /** No two sessions of one user on one server. */
  ghost predicate OnePerUser(all: seq<Session>) {
    all != [] ==> FirstMatch(all[1..], all[0].server, all[0].nick) == null && OnePerUser(all[1..])
  }

  method Find(list: LinkedList<Session>, server: int, nick: string) returns (s: Session?)
    requires list.Valid()
    ensures s == FirstMatch(list.Values(), server, nick)
  {
    ghost var vs, k := list.Values(), 0;
    s := null;
    var item := list.head;
    assert vs[0..] == vs;
    while item != null && s == null
      invariant k <= |vs| && item == At(list.items, k)
      invariant FirstMatch(vs, server, nick) == if s == null then FirstMatch(vs[k..], server, nick) else s
      decreases |vs| - k
    {
      assert list.InPlace(list.items, k);
      assert vs[k..][0] == item.data && vs[k..][1..] == vs[k + 1..];
      if Matches(item.data, server, nick) {
        s := item.data;
      }
      item := item.next;
      k := k + 1;
    }
  }

  /** Whether a user is logged on. */
  method Check(list: LinkedList<Session>, server: int, nick: string) returns (ok: bool)
    requires list.Valid()
    ensures var s := FirstMatch(list.Values(), server, nick); ok == (s != null && s.state == Accepted)
  {
    var s := Find(list, server, nick);
    ok := s != null && s.state == Accepted;
  }

  /** A message from the user of a session. Only a good reply to the challenge
      makes the session accepted, and a session that has ended stays as it is. */
  method Answer(otp: Otp, db: Database, s: Session, nick: string, msg: string, now: int) returns (verified: bool)
    requires Lawful(otp) && !Reinitialises(msg)
    modifies s`record, s`state, s`wakeTime, db
    ensures verified == old(s.state == Challenge && Answers(otp, s.record, msg) && !s.Changed(db, nick))
    ensures s.state == match old(s.state)
      case Challenge => if verified then Accepted else Rejected
      case Accepted => if SameText(msg, "logoff") then Disconnect else Accepted
      case _ => old(s.state)
    ensures s.wakeTime == match old(s.state)
      case Challenge => if verified then now + 30 * 60 else now
      case Accepted => if SameText(msg, "logoff") then now + 5 else old(s.wakeTime)
      case _ => old(s.wakeTime)
    ensures if verified then Follows(otp, old(s.record), s.record) && db.records == old(db.records)[nick := s.record]
      else s.record == old(s.record) && db.records == old(db.records)
  {
    verified := false;
    match s.state
    case Challenge =>
      verified := s.Verify(otp, db, nick, msg);
      s.Judge(verified, now);
    case Accepted =>
      if SameText(msg, "logoff") {
        s.LogOff(now);
      }
    case _ =>
  }

  lemma OneMoreUser(s: Session, all: seq<Session>)
    requires OnePerUser(all) && FirstMatch(all, s.server, s.nick) == null
    ensures OnePerUser([s] + all)
  {
    assert ([s] + all)[1..] == all;
  }

  method AddFirst(list: LinkedList<Session>, s: Session)
    requires list.Valid()
    modifies list`head, list`tail, list`items, Elements(list.items)`prev, Elements(list.items)`next
    ensures list.Valid() && list.Values() == [s] + old(list.Values())
    ensures fresh(Elements(list.items) - old(Elements(list.items)))
  {
    var item := new Item<Session>(s);
    ValuesOfFirst(item, list.items);
    list.Add(item, AtHead);
  }

  // ----- messages and sweeps, as they change what there is -----

  datatype Fields = Fields(record: Record, state: State, wakeTime: int)

  /** The sessions of the list in their order, what their fields hold, the records
      of the database, and all sessions that there have been. */
  datatype World = World(all: seq<Session>, of: map<Session, Fields>, records: map<string, Record>, seen: set<Session>)

  ghost predicate Shows(w: World, list: LinkedList<Session>, db: Database)
    reads list`items, db, w.of.Keys`record, w.of.Keys`state, w.of.Keys`wakeTime
  {
    && w.all == list.Values() && w.records == db.records
    && forall s :: s in w.of ==> w.of[s] == Fields(s.record, s.state, s.wakeTime)
  }

  ghost predicate Proper(w: World) {
    OnePerUser(w.all) && Elements(w.all) == w.of.Keys <= w.seen
  }

  /** A right reply: it answers the record of the session, which is still the one
      in the database. */
  ghost predicate IsRight(otp: Otp, f: Fields, records: map<string, Record>, nick: string, msg: string) {
    && f.state == Challenge && Answers(otp, f.record, msg)
    && nick in records && SameRecord(records[nick], f.record)
  }

  /** What a message does to the fields of its user's session and to the records:
      exactly a right reply to the challenge makes the session accepted, and takes
      the record one step down the chain; any other reply ends it; a log-off ends
      one that is accepted; and one that has ended stays as it is. */
  ghost predicate Answered(otp: Otp, f: Fields, records: map<string, Record>, nick: string, msg: string, now: int,
                           g: Fields, records': map<string, Record>) {
    if IsRight(otp, f, records, nick, msg) then
      && Follows(otp, f.record, g.record) && records' == records[nick := g.record]
      && g.state == Accepted && g.wakeTime == now + 30 * 60
    else
      && records' == records
      && g == match f.state
        case Challenge => Fields(f.record, Rejected, now)
        case Accepted => if SameText(msg, "logoff") then Fields(f.record, Disconnect, now + 5) else f
        case _ => f
  }

  /** A user without a session is given one, with a challenge, if there is a record. */
  ghost predicate Challenged(w: World, server: int, nick: string, now: int, v: World) {
    if nick in w.records then
      && v.all != [] && v.all[1..] == w.all && v.all[0] !in w.seen && v.seen == w.seen + {v.all[0]}
      && v.all[0].server == server && v.all[0].nick == nick
      && v.of == w.of[v.all[0] := Fields(w.records[nick], Challenge, now + 30)] && v.records == w.records
    else v == w
  }

  ghost predicate HeardStep(otp: Otp, w: World, server: int, nick: string, msg: string, now: int, v: World) {
    var s := FirstMatch(w.all, server, nick);
    if s == null then Challenged(w, server, nick, now, v)
    else
      && v.all == w.all && v.seen == w.seen && s in w.of && s in v.of && v.of == w.of[s := v.of[s]]
      && Answered(otp, w.of[s], w.records, nick, msg, now, v.of[s], v.records)
  }

  predicate OverFields(f: Fields, now: int) {
    IsEnded(f.state) || (f.wakeTime != 0 && f.wakeTime <= now)
  }

  function Alive(w: World, now: int): set<Session> {
    set s | s in w.of && !OverFields(w.of[s], now)
  }

  /** The sweep: whoever has ended or run out of time goes. */
  ghost predicate TickedStep(w: World, now: int, v: World) {
    var alive := Alive(w, now);
    && v.all == Pick(w.all, alive) && v.of.Keys == alive && (forall s :: s in alive ==> v.of[s] == w.of[s])
    && v.records == w.records && v.seen == w.seen
  }

  datatype Event = Heard(server: int, nick: string, msg: string, now: int) | Ticked(now: int)

  ghost predicate EventStep(otp: Otp, w: World, e: Event, v: World) {
    match e
    case Heard(server, nick, msg, now) => HeardStep(otp, w, server, nick, msg, now, v)
    case Ticked(now) => TickedStep(w, now, v)
  }

  lemma ChallengedProper(w: World, server: int, nick: string, now: int, v: World)
    requires Proper(w) && FirstMatch(w.all, server, nick) == null && Challenged(w, server, nick, now, v)
    ensures Proper(v)
  {
    if nick in w.records {
      var s := v.all[0];
      assert v.all == [s] + w.all;
      OneMoreUser(s, w.all);
      assert Elements(v.all) == {s} + Elements(w.all);
    }
  }

  lemma {:induction false} PickKeepsOnePerUser(all: seq<Session>, alive: set<Session>)
    requires OnePerUser(all)
    ensures OnePerUser(Pick(all, alive))
  {
    if all != [] {
      var rest := Pick(all[1..], alive);
      PickKeepsOnePerUser(all[1..], alive);
      PickWithin(all[1..], alive);
      assert forall x :: x in rest ==> x in Elements(rest) && x in all[1..];
      assert ([all[0]] + rest)[1..] == rest && [] + rest == rest;
    }
  }

  lemma EventKeepsProper(otp: Otp, w: World, e: Event, v: World)
    requires Proper(w) && EventStep(otp, w, e, v)
    ensures Proper(v) && w.seen <= v.seen
  {
    match e
    case Heard(server, nick, msg, now) =>
      if FirstMatch(w.all, server, nick) == null {
        ChallengedProper(w, server, nick, now, v);
      }
    case Ticked(now) =>
      var alive := Alive(w, now);
      PickKeepsOnePerUser(w.all, alive);
      PickWithin(w.all, alive);
  }

  // ----- the same on the list -----

  method HearKnown(list: LinkedList<Session>, otp: Otp, db: Database, s: Session, nick: string, msg: string, now: int,
                   ghost w: World)
    returns (ghost v: World)
    requires list.Valid() && Shows(w, list, db) && s in w.of && Lawful(otp) && !Reinitialises(msg)
    modifies s`record, s`state, s`wakeTime, db
    ensures list.Valid() && list.items == old(list.items) && Shows(v, list, db)
    ensures s in v.of && v == w.(of := w.of[s := v.of[s]], records := v.records)
    ensures Answered(otp, w.of[s], w.records, nick, msg, now, v.of[s], v.records)
  {
    var verified := Answer(otp, db, s, nick, msg, now);
    forall i | 0 <= i < |list.items| ensures list.InPlace(list.items, i) {
      assert old(list.InPlace(list.items, i));
    }
    v := w.(of := w.of[s := Fields(s.record, s.state, s.wakeTime)], records := db.records);
  }

  /** A user without a session is given one, with a challenge, if there is a record. */
  method Begin(list: LinkedList<Session>, db: Database, server: int, nick: string, now: int, ghost w: World)
    returns (ghost v: World)
    requires list.Valid() && Shows(w, list, db) && Proper(w) && FirstMatch(w.all, server, nick) == null
    modifies list`head, list`tail, list`items, Elements(list.items)`prev, Elements(list.items)`next
    ensures list.Valid() && Shows(v, list, db) && Challenged(w, server, nick, now, v)
    ensures fresh(Elements(list.items) - old(Elements(list.items))) && fresh(v.seen - w.seen)
  {
    v := w;
    if nick in db.records {
      v := Enlist(list, db, server, nick, now, w);
    }
  }

  method Enlist(list: LinkedList<Session>, db: Database, server: int, nick: string, now: int, ghost w: World)
    returns (ghost v: World)
    requires list.Valid() && Shows(w, list, db) && Proper(w) && nick in w.records
    modifies list`head, list`tail, list`items, Elements(list.items)`prev, Elements(list.items)`next
    ensures list.Valid() && Shows(v, list, db) && Challenged(w, server, nick, now, v)
    ensures fresh(Elements(list.items) - old(Elements(list.items))) && fresh(v.seen - w.seen)
  {
    var s := new Session(server, nick, db.records[nick], now + 30);
    v := WithNewcomer(w, s, server, nick, now);
    AddFirst(list, s);
  }

  lemma WithNewcomer(w: World, s: Session, server: int, nick: string, now: int) returns (v: World)
    requires nick in w.records && s !in w.seen && Proper(w) && s.server == server && s.nick == nick
    ensures v == World([s] + w.all, w.of[s := Fields(w.records[nick], Challenge, now + 30)], w.records, w.seen + {s})
    ensures Challenged(w, server, nick, now, v)
  {
    v := World([s] + w.all, w.of[s := Fields(w.records[nick], Challenge, now + 30)], w.records, w.seen + {s});
    assert v.all[1..] == w.all;
  }

  /** What the bot does with a message to it in private. */
  method Hear(list: LinkedList<Session>, otp: Otp, db: Database, server: int, nick: string, msg: string, now: int,
              ghost w: World)
    returns (ghost v: World)
    requires list.Valid() && Shows(w, list, db) && Proper(w) && Lawful(otp) && !Reinitialises(msg)
    modifies list, Elements(list.items), w.of.Keys, db
    ensures list.Valid() && Shows(v, list, db) && HeardStep(otp, w, server, nick, msg, now, v)
    ensures fresh(Elements(list.items) - old(Elements(list.items))) && fresh(v.seen - w.seen)
  {
    var s := Find(list, server, nick);
    if s != null {
      assert s in Elements(w.all);
      v := HearKnown(list, otp, db, s, nick, msg, now, w);
    } else {
      v := Begin(list, db, server, nick, now, w);
    }
  }

  /** The sweep at some time: whoever has ended or run out of time goes, and the
      others stay as they are. */
  method Tick(list: LinkedList<Session>, db: Database, now: int, ghost w: World) returns (ghost v: World)
    requires list.Valid() && Shows(w, list, db) && Proper(w)
    modifies list, Elements(list.items), w.of.Keys`state
    ensures list.Valid() && Shows(v, list, db) && TickedStep(w, now, v)
    ensures Elements(list.items) <= old(Elements(list.items))
  {
    ghost var alive := Alive(w, now);
    ghost var states := map s | s in w.of :: w.of[s].state;
    AliveUntouched(w, now, states);
    Sweep(list, now, w.of.Keys, alive, states, Pick(w.all, alive));
    v := AliveShow(list, db, now, w, states);
  }

  /** The sessions that a sweep leaves are as they were. */
  lemma AliveShow(list: LinkedList<Session>, db: Database, now: int, w: World, states: map<Session, State>)
    returns (v: World)
    requires list.Values() == Pick(w.all, Alive(w, now)) && w.records == db.records && w.of.Keys == states.Keys
    requires LivingUntouched(w.of.Keys, {}, Alive(w, now), now, states)
    requires forall s :: s in w.of ==> w.of[s] == Fields(s.record, states[s], s.wakeTime)
    ensures Shows(v, list, db) && TickedStep(w, now, v)
  {
    var alive := Alive(w, now);
    v := w.(all := Pick(w.all, alive), of := map s | s in alive :: w.of[s]);
    assert v.of.Keys == alive;
    forall s | s in v.of ensures v.of[s] == Fields(s.record, s.state, s.wakeTime) {
      assert s in w.of && s in alive && s.state == states[s];
    }
  }

  lemma AliveUntouched(w: World, now: int, states: map<Session, State>)
    requires w.of.Keys == states.Keys
    requires forall s :: s in w.of ==> w.of[s] == Fields(s.record, s.state, s.wakeTime) && states[s] == s.state
    ensures LivingUntouched(w.of.Keys, w.of.Keys, Alive(w, now), now, states)
  {
    forall s | s in w.of ensures Over(s, now) <==> s !in Alive(w, now) {
      assert w.of[s] == Fields(s.record, s.state, s.wakeTime);
    }
  }

  method OneEvent(list: LinkedList<Session>, otp: Otp, db: Database, e: Event, ghost w: World) returns (ghost v: World)
    requires list.Valid() && Shows(w, list, db) && Proper(w) && Lawful(otp)
    requires e.Heard? ==> !Reinitialises(e.msg)
    modifies list, Elements(list.items), w.of.Keys, db
    ensures list.Valid() && Shows(v, list, db) && Proper(v) && EventStep(otp, w, e, v)
    ensures fresh(Elements(list.items) - old(Elements(list.items))) && fresh(v.seen - w.seen)
  {
    match e {
      case Heard(server, nick, msg, now) => v := Hear(list, otp, db, server, nick, msg, now, w);
      case Ticked(now) => v := Tick(list, db, now, w);
    }
    EventKeepsProper(otp, w, e, v);
  }

  // ----- runs -----

  /** What there is before and after each event. */
  ghost predicate Story(otp: Otp, events: seq<Event>, worlds: seq<World>) {
    && |worlds| == |events| + 1 && Proper(worlds[0])
    && forall i :: 0 <= i < |events| ==> EventStep(otp, worlds[i], events[i], worlds[i + 1])
  }

  /** Every message and every sweep of a run does what it should. */
  method Run(list: LinkedList<Session>, otp: Otp, db: Database, events: seq<Event>, ghost first: World)
    returns (ghost worlds: seq<World>)
    requires list.Valid() && Shows(first, list, db) && Proper(first) && Lawful(otp)
    requires forall i :: 0 <= i < |events| && events[i].Heard? ==> !Reinitialises(events[i].msg)
    modifies list, Elements(list.items), first.seen, db
    ensures list.Valid() && Story(otp, events, worlds) && worlds[0] == first
    ensures Shows(worlds[|events|], list, db)
  {
    worlds := [first];
    ghost var w := first;
    for i := 0 to |events|
      invariant list.Valid() && Shows(w, list, db) && Proper(w)
      invariant fresh(Elements(list.items) - old(Elements(list.items))) && fresh(w.seen - first.seen)
      invariant Story(otp, events[..i], worlds) && worlds[0] == first && worlds[i] == w
    {
      worlds, w := RunOn(list, otp, db, events, i, worlds, w);
    }
    assert events[..|events|] == events;
  }

  method RunOn(list: LinkedList<Session>, otp: Otp, db: Database, events: seq<Event>, i: nat,
               ghost worlds: seq<World>, ghost w: World)
    returns (ghost longer: seq<World>, ghost v: World)
    requires list.Valid() && Shows(w, list, db) && Proper(w) && Lawful(otp) && i < |events|
    requires events[i].Heard? ==> !Reinitialises(events[i].msg)
    requires Story(otp, events[..i], worlds) && worlds[i] == w
    modifies list, Elements(list.items), w.seen, db
    ensures list.Valid() && Shows(v, list, db) && Proper(v)
    ensures fresh(Elements(list.items) - old(Elements(list.items))) && fresh(v.seen - w.seen)
    ensures Story(otp, events[..i + 1], longer) && longer[0] == worlds[0] && longer[i + 1] == v
  {
    v := OneEvent(list, otp, db, events[i], w);
    longer := OneMoreEvent(otp, events, i, worlds, v);
  }

  lemma OneMoreEvent(otp: Otp, events: seq<Event>, i: nat, worlds: seq<World>, v: World) returns (longer: seq<World>)
    requires i < |events| && Story(otp, events[..i], worlds) && EventStep(otp, worlds[i], events[i], v)
    ensures Story(otp, events[..i + 1], longer) && longer[0] == worlds[0] && longer[i + 1] == v
  {
    longer := worlds + [v];
    forall j | 0 <= j < i + 1 ensures EventStep(otp, longer[j], events[..i + 1][j], longer[j + 1]) {
      assert j < i ==> EventStep(otp, worlds[j], events[..i][j], worlds[j + 1]);
    }
  }

  lemma {:induction false} StoryProper(otp: Otp, events: seq<Event>, worlds: seq<World>, i: nat)
    requires Story(otp, events, worlds) && i <= |events|
    ensures Proper(worlds[i])
    decreases i
  {
    if i > 0 {
      StoryProper(otp, events, worlds, i - 1);
      EventKeepsProper(otp, worlds[i - 1], events[i - 1], worlds[i]);
    }
  }

  /** A session that has ended stays as it is until the next sweep, which takes it
      away for good. */
  lemma {:induction false} EndedStay(otp: Otp, events: seq<Event>, worlds: seq<World>, i: nat, j: nat, s: Session)
    requires Story(otp, events, worlds) && i <= j <= |events|
    requires s in worlds[i].seen && (s in worlds[i].of ==> IsEnded(worlds[i].of[s].state))
    ensures s in worlds[j].seen && (s in worlds[j].of ==> s in worlds[i].of && worlds[j].of[s] == worlds[i].of[s])
    ensures s in worlds[j].of ==> forall k :: i <= k < j ==> events[k].Heard?
    decreases j - i
  {
    if i < j {
      StoryProper(otp, events, worlds, i);
      EndedStep(otp, worlds[i], events[i], worlds[i + 1], s);
      EndedStay(otp, events, worlds, i + 1, j, s);
    }
  }

  lemma EndedStep(otp: Otp, w: World, e: Event, v: World, s: Session)
    requires Proper(w) && EventStep(otp, w, e, v) && s in w.seen && (s in w.of ==> IsEnded(w.of[s].state))
    ensures s in v.seen && (s in v.of ==> s in w.of && v.of[s] == w.of[s] && e.Heard?)
  {
  }

  /** Whoever is accepted was so at the start, or has given a right reply since, to
      the challenge of this very session. */
  lemma {:induction false} AcceptedWasRight(otp: Otp, events: seq<Event>, worlds: seq<World>, j: nat, s: Session)
    requires Story(otp, events, worlds) && j <= |events| && s in worlds[j].of && worlds[j].of[s].state == Accepted
    ensures || (s in worlds[0].of && worlds[0].of[s].state == Accepted)
      || exists i :: 0 <= i < j && RightReply(otp, worlds[i], events[i], s)
    decreases j
  {
    if j > 0 {
      StoryProper(otp, events, worlds, j - 1);
      if !RightReply(otp, worlds[j - 1], events[j - 1], s) {
        AcceptedBefore(otp, worlds[j - 1], events[j - 1], worlds[j], s);
        AcceptedWasRight(otp, events, worlds, j - 1, s);
      }
    }
  }

  ghost predicate RightReply(otp: Otp, w: World, e: Event, s: Session) {
    e.Heard? && FirstMatch(w.all, e.server, e.nick) == s && s in w.of && IsRight(otp, w.of[s], w.records, e.nick, e.msg)
  }

  lemma AcceptedBefore(otp: Otp, w: World, e: Event, v: World, s: Session)
    requires Proper(w) && EventStep(otp, w, e, v) && s in v.of && v.of[s].state == Accepted
    requires !RightReply(otp, w, e, s)
    ensures s in w.of && w.of[s].state == Accepted
  {
  }

  /** A right reply is accepted whenever it comes. */
  lemma RightIsAccepted(otp: Otp, w: World, e: Event, v: World, s: Session)
    requires EventStep(otp, w, e, v) && RightReply(otp, w, e, s)
    ensures v.of[s].state == Accepted && v.of[s].wakeTime == e.now + 30 * 60
  {
  }
}
