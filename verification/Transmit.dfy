/** The transmit thread of a server: what it owes to pacing, and the list of
    recent sends that it keeps below the flood limit. */
module Transmit {
  import opened Rows
  import opened LinkedLists

  /** A recent send: how many bytes, and when they stop counting. */
  datatype FloodItem = FloodItem(timeWake: int, bytes: nat)

  function Unexpired(s: seq<FloodItem>, now: int): seq<FloodItem> {
    if s == [] then []
    else if s[0].timeWake > now then [s[0]] + Unexpired(s[1..], now)
    else Unexpired(s[1..], now)
  }

  lemma UnexpiredNext(kept: seq<FloodItem>, rest: seq<FloodItem>, now: int)
    requires rest != []
    ensures (if rest[0].timeWake <= now then kept else kept + [rest[0]]) + Unexpired(rest[1..], now)
      == kept + Unexpired(rest, now)
  {
    if rest[0].timeWake > now {
      Reassociate(kept, [rest[0]], Unexpired(rest[1..], now));
    }
  }

  /** Deletes while it walks. */
  method FloodCleanup(list: LinkedList<FloodItem>, now: int)
    requires list.Valid()
    modifies list`head, list`tail, list`items
    modifies Elements(list.items)`prev, Elements(list.items)`next, Elements(list.items)`list
    ensures list.Valid() && list.Values() == Unexpired(old(list.Values()), now)
    ensures Elements(list.items) <= old(Elements(list.items))
  {
    ghost var left := Unexpired(list.Values(), now);
    ghost var kept: seq<FloodItem>, rest := [], list.Values();
    var prev: Item?<FloodItem>, item := null, list.head;
    WalkStarts(list);
    assert kept + left == left;
    while item != null
      invariant list.Valid() && Elements(list.items) <= old(Elements(list.items))
      invariant Walked(list, kept, rest, prev, item) && kept + Unexpired(rest, now) == left
      decreases |rest|
    {
      WalkGoesOn(list, kept, rest, prev, item);
      UnexpiredNext(kept, rest, now);
      prev, item, kept, rest := list.WalkOn(item, prev, item.data.timeWake <= now, kept, rest);
    }
    WalkEnds(list, kept, rest, prev);
    assert kept + [] == kept;
  }

  // ----- how many bytes count, and until when -----

  function TotalBytes(s: seq<FloodItem>): nat {
    if s == [] then 0 else s[0].bytes + TotalBytes(s[1..])
  }

  /** The bytes that no longer count at a time. */
  function ExpiredBytes(s: seq<FloodItem>, now: int): nat {
    if s == [] then 0 else (if s[0].timeWake <= now then s[0].bytes else 0) + ExpiredBytes(s[1..], now)
  }

  lemma {:induction false} ExpiredAndNot(s: seq<FloodItem>, now: int)
    ensures ExpiredBytes(s, now) + TotalBytes(Unexpired(s, now)) == TotalBytes(s)
  {
    if s != [] {
      ExpiredAndNot(s[1..], now);
      assert ([s[0]] + Unexpired(s[1..], now))[1..] == Unexpired(s[1..], now);
    }
  }

  lemma {:induction false} ExpiredGrows(s: seq<FloodItem>, t: int, u: int)
    requires t <= u
    ensures ExpiredBytes(s, t) <= ExpiredBytes(s, u)
  {
    if s != [] {
      ExpiredGrows(s[1..], t, u);
    }
  }

  predicate InWakeOrder(s: seq<FloodItem>) {
    |s| > 1 ==> s[0].timeWake <= s[1].timeWake && InWakeOrder(s[1..])
  }

  lemma {:induction false} OrderMeans(s: seq<FloodItem>)
    ensures InWakeOrder(s) <==> forall i, j :: 0 <= i < j < |s| ==> s[i].timeWake <= s[j].timeWake
  {
    if |s| > 1 {
      OrderMeans(s[1..]);
      assert forall i :: 0 < i < |s| ==> s[i] == s[1..][i - 1];
      assert forall i :: 0 <= i < |s| - 1 ==> s[1..][i] == s[i + 1];
    }
  }

  /** The wake time of the entry that brings the bytes seen so far to `need`, of
      the last entry when none does, and `now` for an empty list. */
  function ReadyTime(s: seq<FloodItem>, need: int, now: int): int {
    if s == [] then now
    else if s[0].bytes >= need then s[0].timeWake
    else ReadyTime(s[1..], need - s[0].bytes, s[0].timeWake)
  }

  /** `t` is the first time at which `need` bytes have expired. */
  ghost predicate FirstReady(s: seq<FloodItem>, need: int, t: int) {
    ExpiredBytes(s, t) >= need && forall u :: u < t ==> ExpiredBytes(s, u) < need
  }

  lemma {:induction false} ReadyWithin(s: seq<FloodItem>, need: int, now: int)
    requires s != []
    ensures exists i :: 0 <= i < |s| && ReadyTime(s, need, now) == s[i].timeWake
  {
    var t := ReadyTime(s, need, now);
    if s[0].bytes < need && |s| > 1 {
      ReadyWithin(s[1..], need - s[0].bytes, s[0].timeWake);
      var i :| 0 <= i < |s[1..]| && ReadyTime(s, need, now) == s[1..][i].timeWake;
      assert s[i + 1].timeWake == s[1..][i].timeWake;
    } else {
      if |s| == 1 {
        assert s[1..] == [];
        assert ReadyTime(s[1..], need - s[0].bytes, s[0].timeWake) == s[0].timeWake;
      }
      assert t == s[0].timeWake;
    }
  }

  /** In wake order, the answer is the first time that will do. */
  lemma {:induction false} ReadyIsFirst(s: seq<FloodItem>, need: int, now: int)
    requires InWakeOrder(s) && 0 < need <= TotalBytes(s)
    ensures FirstReady(s, need, ReadyTime(s, need, now))
  {
    var r, w := ReadyTime(s, need, now), s[0].timeWake;
    OrderMeans(s);
    if s[0].bytes >= need {
      forall u | u < r ensures ExpiredBytes(s, u) < need {
        NoneExpired(s, u);
      }
    } else {
      ReadyIsFirst(s[1..], need - s[0].bytes, w);
      ReadyWithin(s[1..], need - s[0].bytes, w);
      var i :| 0 <= i < |s[1..]| && r == s[1..][i].timeWake;
      assert w <= s[i + 1].timeWake == r;
      forall u | u < r ensures ExpiredBytes(s, u) < need {
        assert ExpiredBytes(s[1..], u) < need - s[0].bytes;
      }
    }
  }

  lemma {:induction false} NoneExpired(s: seq<FloodItem>, now: int)
    requires forall i :: 0 <= i < |s| ==> s[i].timeWake > now
    ensures ExpiredBytes(s, now) == 0
  {
    if s != [] {
      NoneExpired(s[1..], now);
    }
  }

  lemma {:induction false} ExpiredIncludes(s: seq<FloodItem>, j: nat, u: int)
    requires j < |s| && s[j].timeWake <= u
    ensures ExpiredBytes(s, u) >= s[j].bytes
  {
    if j > 0 {
      ExpiredIncludes(s[1..], j - 1, u);
    }
  }

  /** One more byte than the first `i` entries hold takes entry `i`; but where an
      entry `j` further on expires before it, those bytes are free earlier. */
  lemma {:induction false} ReadyTooLate(s: seq<FloodItem>, i: nat, j: nat, now: int) returns (need: int)
    requires i < j < |s| && s[j].timeWake < s[i].timeWake && s[i].bytes > 0 && s[j].bytes > 0
    requires forall k :: 0 <= k < i ==> s[k].timeWake <= s[j].timeWake
    ensures 0 < need <= TotalBytes(s) && ReadyTime(s, need, now) == s[i].timeWake
    ensures ExpiredBytes(s, s[j].timeWake) >= need
  {
    if i == 0 {
      need := 1;
      ExpiredIncludes(s, j, s[j].timeWake);
    } else {
      var rest := ReadyTooLate(s[1..], i - 1, j - 1, s[0].timeWake);
      need := s[0].bytes + rest;
    }
  }

  lemma {:induction false} FirstLater(s: seq<FloodItem>, i: nat, j: nat) returns (f: nat)
    requires i < j < |s| && s[i].timeWake > s[j].timeWake
    ensures f < j && s[f].timeWake > s[j].timeWake && forall k :: 0 <= k < f ==> s[k].timeWake <= s[j].timeWake
    decreases i
  {
    if k :| 0 <= k < i && s[k].timeWake > s[j].timeWake {
      f := FirstLater(s, k, j);
    } else {
      f := i;
    }
  }

  /** Looking through the list in its own order finds the first time that will
      do, whatever is needed, exactly when the list is in wake order. */
  lemma ReadyExact(s: seq<FloodItem>, now: int)
    requires forall i :: 0 <= i < |s| ==> s[i].bytes > 0
    ensures InWakeOrder(s) <==>
      forall need :: 0 < need <= TotalBytes(s) ==> FirstReady(s, need, ReadyTime(s, need, now))
  {
    OrderMeans(s);
    if InWakeOrder(s) {
      forall need | 0 < need <= TotalBytes(s) ensures FirstReady(s, need, ReadyTime(s, need, now)) {
        ReadyIsFirst(s, need, now);
      }
    } else {
      var i, j :| 0 <= i < j < |s| && s[i].timeWake > s[j].timeWake;
      var f := FirstLater(s, i, j);
      var need := ReadyTooLate(s, f, j, now);
      assert !FirstReady(s, need, ReadyTime(s, need, now));
    }
  }

  /** Out of order, waiting as told may still leave too much on the list: after
      a line of 600 bytes and one of 60, freeing 620 bytes waits for the second
      line only, which wakes first because its penalty is shorter. */
  lemma ReadyMisjudges(sent: int)
    ensures var s := [FloodItem(sent + 1 + 600 / 120, 600), FloodItem(sent + 1 + 60 / 120, 60)];
      ReadyTime(s, 620, sent) == sent + 1 && ExpiredBytes(s, sent + 1) == 60
  {
    var s := [FloodItem(sent + 6, 600), FloodItem(sent + 1, 60)];
    assert s[1..] == [FloodItem(sent + 1, 60)];
    assert s[1..][1..] == [];
    assert ReadyTime(s[1..], 20, sent + 6) == sent + 1;
    assert ExpiredBytes(s[1..], sent + 1) == 60;
  }

  // ----- the flood list -----

  method FloodSize(list: LinkedList<FloodItem>) returns (total: nat)
    requires list.Valid()
    ensures total == TotalBytes(list.Values()) && list.Valid() && list.Values() == old(list.Values())
  {
    ghost var vs, k := list.Values(), 0;
    total := 0;
    var item := list.head;
    assert vs[0..] == vs;
    while item != null
      invariant k <= |vs| && item == At(list.items, k)
      invariant list.Valid() && list.Values() == vs
      invariant total + TotalBytes(vs[k..]) == TotalBytes(vs)
      decreases |vs| - k
    {
      assert list.InPlace(list.items, k);
      assert vs[k..][1..] == vs[k + 1..];
      total := total + item.data.bytes;
      item := item.next;
      k := k + 1;
    }
  }

  method FloodReady(list: LinkedList<FloodItem>, bytes: int, now: int) returns (time: int)
    requires list.Valid()
    ensures time == ReadyTime(list.Values(), bytes, now) && list.Valid() && list.Values() == old(list.Values())
  {
    ghost var vs, k := list.Values(), 0;
    var need, found := bytes, false;
    time := now;
    var item := list.head;
    assert vs[0..] == vs;
    while item != null && !found
      invariant k <= |vs| && item == At(list.items, k)
      invariant list.Valid() && list.Values() == vs
      invariant (if found then time else ReadyTime(vs[k..], need, time)) == ReadyTime(vs, bytes, now)
      decreases |vs| - k
    {
      assert list.InPlace(list.items, k);
      assert vs[k..][1..] == vs[k + 1..];
      time := item.data.timeWake;
      if item.data.bytes >= need {
        found := true;
      }
      need := need - item.data.bytes;
      item := item.next;
      k := k + 1;
    }
  }

  lemma {:induction false} UnexpiredTwice(s: seq<FloodItem>, a: int, b: int)
    requires a <= b
    ensures Unexpired(Unexpired(s, a), b) == Unexpired(s, b)
  {
    if s != [] {
      UnexpiredTwice(s[1..], a, b);
      assert ([s[0]] + Unexpired(s[1..], a))[1..] == Unexpired(s[1..], a);
    }
  }

  lemma {:induction false} UnexpiredStays(s: seq<FloodItem>, now: int)
    ensures forall x :: x in Unexpired(s, now) ==> x in s && x.timeWake > now
    ensures InWakeOrder(s) ==> InWakeOrder(Unexpired(s, now))
  {
    if s != [] {
      UnexpiredStays(s[1..], now);
      if InWakeOrder(s) {
        OrderMeans(s);
        var rest := Unexpired(s[1..], now);
        if rest != [] {
          assert rest[0] in s[1..];
          assert s[0].timeWake <= rest[0].timeWake;
          assert ([s[0]] + rest)[1..] == rest;
        } else {
          assert |s| > 1 ==> InWakeOrder(s[1..]);
        }
      }
    }
  }

  /** Once the clock has reached the ready time, the line fits. */
  lemma RoomOnceReady(s: seq<FloodItem>, len: nat, buffer: int, asked: int, at: int)
    requires InWakeOrder(s) && len < buffer <= TotalBytes(s) + len
    requires at >= ReadyTime(s, TotalBytes(s) + len + 1 - buffer, asked)
    ensures TotalBytes(Unexpired(s, at)) + len < buffer
  {
    var need := TotalBytes(s) + len + 1 - buffer;
    ReadyIsFirst(s, need, asked);
    ExpiredGrows(s, ReadyTime(s, need, asked), at);
    ExpiredAndNot(s, at);
  }

  /** In wake order, a line that can fit at all does fit at time `at`. */
  predicate Fits(before: seq<FloodItem>, at: int, len: nat, buffer: int) {
    InWakeOrder(before) && len < buffer ==> TotalBytes(Unexpired(before, at)) + len < buffer
  }

  /** A line fits after a clean-up at `t` and the wait that it may call for. */
  lemma LineFits(before: seq<FloodItem>, t: int, asked: int, at: int, len: nat, buffer: int)
    requires t <= at
    requires var s := Unexpired(before, t);
      TotalBytes(s) + len >= buffer ==> at >= ReadyTime(s, TotalBytes(s) + len + 1 - buffer, asked)
    ensures Fits(before, at, len, buffer)
  {
    var s := Unexpired(before, t);
    UnexpiredTwice(before, t, at);
    if TotalBytes(s) + len < buffer {
      ExpiredAndNot(s, at);
    } else if InWakeOrder(before) && len < buffer {
      UnexpiredStays(before, t);
      RoomOnceReady(s, len, buffer, asked, at);
    }
  }

  /** Every entry stops counting at the latest at some time. */
  predicate WakeBy(s: seq<FloodItem>, latest: int) {
    s != [] ==> s[0].timeWake <= latest && WakeBy(s[1..], latest)
  }

  lemma {:induction false} WakeByMeans(s: seq<FloodItem>, latest: int)
    ensures WakeBy(s, latest) <==> forall x :: x in s ==> x.timeWake <= latest
  {
    if s != [] {
      WakeByMeans(s[1..], latest);
      assert forall x :: x in s <==> x == s[0] || x in s[1..];
    }
  }

  /** A new last entry that wakes no earlier than all others keeps the order. */
  lemma OrderKept(before: seq<FloodItem>, cleaned: int, wake: int, bytes: nat)
    requires InWakeOrder(before) && WakeBy(before, wake)
    ensures var after := Unexpired(before, cleaned) + [FloodItem(wake, bytes)];
      InWakeOrder(after) && WakeBy(after, wake)
  {
    UnexpiredStays(before, cleaned);
    WakeByMeans(before, wake);
    AppendLast(Unexpired(before, cleaned), FloodItem(wake, bytes));
  }

  lemma {:induction false} AppendLast(s: seq<FloodItem>, x: FloodItem)
    requires InWakeOrder(s) && forall y :: y in s ==> y.timeWake <= x.timeWake
    ensures InWakeOrder(s + [x]) && WakeBy(s + [x], x.timeWake)
  {
    if s == [] {
      assert s + [x] == [x] && [x][1..] == [];
    } else {
      assert (s + [x])[1..] == s[1..] + [x] && (s + [x])[0] == s[0];
      assert s[0] in s;
      if |s| == 1 {
        assert s[1..] == [];
      } else {
        assert (s + [x])[1] == s[1];
      }
      AppendLast(s[1..], x);
    }
  }

  // ----- time -----

  /** Reading the clock, which never runs backwards. */
  method ReadClock(last: int) returns (now: int)
    ensures now >= last
  {
    now :| now >= last;
  }

  /** Sleeping for a while, never for less. */
  method Sleep(from: int, seconds: int) returns (now: int)
    ensures now >= from + seconds
  {
    now :| now >= from + seconds;
  }

  // ----- sending -----

  datatype Limits = Limits(floodInterval: int, floodMaxTime: int, floodBuffer: int)

  /** The limits as they are read from the database. */
  function Clamped(interval: int, maxTime: int, buffer: int): (l: Limits)
    ensures l.floodInterval >= 1 && l.floodMaxTime >= 4
    ensures interval >= 1 && maxTime >= 4 ==> l == Limits(interval, maxTime, buffer)
    ensures l.floodBuffer == buffer && (interval < 1 ==> l.floodInterval == 1) && (maxTime < 4 ==> l.floodMaxTime == 4)
  {
    Limits(if interval <= 0 then 1 else interval, if maxTime < 4 then 4 else maxTime, buffer)
  }

  function Penalty(limits: Limits, len: nat): int {
    limits.floodInterval + len / 120
  }

  /** A line sent: when it was taken off the queue, when it went out, its length,
      and the bytes that still counted against the server as it went out. */
  datatype Sent = Sent(dequeued: int, at: int, len: nat, load: nat)

  function Later(a: int, b: int): int {
    if a < b then b else a
  }

  /** What the pacing promises of one send, given the running send time before. */
  ghost predicate Paced(limits: Limits, sent: Sent, sendTime: int) {
    sent.dequeued <= sent.at && Later(sendTime, sent.dequeued) <= sent.at + limits.floodMaxTime
  }

  /** The running send time before send `k`; it starts at 0. */
  function SendTimeTo(limits: Limits, log: seq<Sent>, k: nat): int
    requires k <= |log|
  {
    if k == 0 then 0
    else Later(SendTimeTo(limits, log, k - 1), log[k - 1].dequeued) + Penalty(limits, log[k - 1].len)
  }

  /** A run of one transmit thread: every send is paced, and a line is taken off
      the queue only once the line before it is out. */
  ghost predicate PacedRun(limits: Limits, log: seq<Sent>)
    decreases |log|
  {
    log == [] ||
    var k := |log| - 1;
    && PacedRun(limits, log[..k])
    && Paced(limits, log[k], SendTimeTo(limits, log, k))
    && (k > 0 ==> log[k - 1].at <= log[k].dequeued)
  }

  lemma {:induction false} PacedThere(limits: Limits, log: seq<Sent>, k: nat)
    requires PacedRun(limits, log) && k < |log|
    ensures Paced(limits, log[k], SendTimeTo(limits, log, k))
    ensures k > 0 ==> log[k - 1].at <= log[k].dequeued
    decreases |log|
  {
    var n := |log| - 1;
    if k < n {
      PacedThere(limits, log[..n], k);
      SendTimeExtends(limits, log[..n], [log[n]], k);
      assert log[..n] + [log[n]] == log;
    }
  }

  lemma {:induction false} SendTimeExtends(limits: Limits, log: seq<Sent>, more: seq<Sent>, k: nat)
    requires k <= |log|
    ensures SendTimeTo(limits, log + more, k) == SendTimeTo(limits, log, k)
  {
    if k > 0 {
      SendTimeExtends(limits, log, more, k - 1);
    }
  }

  lemma PacedOneMore(limits: Limits, log: seq<Sent>, sent: Sent)
    requires PacedRun(limits, log) && Paced(limits, sent, SendTimeTo(limits, log, |log|))
    requires log == [] || log[|log| - 1].at <= sent.dequeued
    ensures PacedRun(limits, log + [sent])
    ensures SendTimeTo(limits, log + [sent], |log| + 1)
      == Later(SendTimeTo(limits, log, |log|), sent.dequeued) + Penalty(limits, sent.len)
  {
    var all := log + [sent];
    assert all[..|log|] == log;
    SendTimeExtends(limits, log, [sent], |log|);
  }

  /** The penalties of the sends from `i` up to but not including `j`. */
  function Penalties(limits: Limits, log: seq<Sent>, i: nat, j: nat): int
    requires i <= j <= |log|
    decreases j - i
  {
    if i == j then 0 else Penalties(limits, log, i, j - 1) + Penalty(limits, log[j - 1].len)
  }

  lemma {:induction false} SendTimeAdvances(limits: Limits, log: seq<Sent>, i: nat, j: nat)
    requires i <= j <= |log|
    ensures SendTimeTo(limits, log, j) >= SendTimeTo(limits, log, i) + Penalties(limits, log, i, j)
    decreases j - i
  {
    if i < j {
      SendTimeAdvances(limits, log, i, j - 1);
    }
  }

  /** The penalties of the sends strictly between two sends are paid for by the
      time that passes between the two and the credit of `floodMaxTime`. */
  lemma BetweenTwoSends(limits: Limits, log: seq<Sent>, i: nat, j: nat)
    requires PacedRun(limits, log) && i < j < |log|
    ensures Penalties(limits, log, i + 1, j) <= log[j].at - log[i].at + limits.floodMaxTime
  {
    PacedThere(limits, log, j);
    OutBefore(limits, log, i);
    CreditCovers(limits, log, i, j);
  }

  lemma OutBefore(limits: Limits, log: seq<Sent>, i: nat)
    requires PacedRun(limits, log) && i + 1 < |log|
    ensures log[i].at <= log[i + 1].dequeued
  {
    PacedThere(limits, log, i + 1);
  }

  lemma CreditCovers(limits: Limits, log: seq<Sent>, i: nat, j: nat)
    requires i < j < |log| && log[i].at <= log[i + 1].dequeued
    requires Paced(limits, log[j], SendTimeTo(limits, log, j))
    ensures Penalties(limits, log, i + 1, j) <= log[j].at - log[i].at + limits.floodMaxTime
  {
    if i + 1 < j {
      CreditOf(limits, log, i + 1, j);
    }
  }

  /** The send time before `j` counts from when line `i` was taken off the queue. */
  lemma CreditOf(limits: Limits, log: seq<Sent>, i: nat, j: nat)
    requires i < j <= |log|
    ensures SendTimeTo(limits, log, j) >= log[i].dequeued + Penalties(limits, log, i, j)
  {
    SendTimeAdvances(limits, log, i + 1, j);
    PenaltiesFirst(limits, log, i, j);
    assert SendTimeTo(limits, log, i + 1)
      == Later(SendTimeTo(limits, log, i), log[i].dequeued) + Penalty(limits, log[i].len);
  }

  lemma {:induction false} PenaltiesFirst(limits: Limits, log: seq<Sent>, i: nat, j: nat)
    requires i < j <= |log|
    ensures Penalties(limits, log, i, j) == Penalty(limits, log[i].len) + Penalties(limits, log, i + 1, j)
    decreases j
  {
    if i + 1 < j {
      PenaltiesFirst(limits, log, i, j - 1);
    }
  }

  lemma {:induction false} PenaltiesAtLeast(limits: Limits, log: seq<Sent>, i: nat, j: nat)
    requires i <= j <= |log|
    ensures Penalties(limits, log, i, j) >= (j - i) * limits.floodInterval
    decreases j - i
  {
    if i < j {
      PenaltiesAtLeast(limits, log, i, j - 1);
      assert (j - i) * limits.floodInterval == (j - 1 - i) * limits.floodInterval + limits.floodInterval;
    }
  }

  /** At most 2 + (W + floodMaxTime) / floodInterval lines go out within W seconds. */
  lemma SendsInWindow(limits: Limits, log: seq<Sent>, i: nat, j: nat, window: nat)
    requires PacedRun(limits, log) && i <= j < |log| && log[j].at - log[i].at <= window
    requires limits.floodInterval >= 1 && limits.floodMaxTime >= 0
    ensures j - i + 1 <= 2 + (window + limits.floodMaxTime) / limits.floodInterval
  {
    if i < j {
      BetweenTwoSends(limits, log, i, j);
      PenaltiesAtLeast(limits, log, i + 1, j);
      QuotientAtLeast(j - i - 1, limits.floodInterval, window + limits.floodMaxTime);
    } else {
      QuotientAtLeast(0, limits.floodInterval, window + limits.floodMaxTime);
    }
  }

  /** So it is whatever the database holds, since the limits are clamped. */
  lemma SendsInWindowAsLoaded(interval: int, maxTime: int, buffer: int, log: seq<Sent>, i: nat, j: nat, window: nat)
    requires PacedRun(Clamped(interval, maxTime, buffer), log) && i <= j < |log| && log[j].at - log[i].at <= window
    ensures var limits := Clamped(interval, maxTime, buffer);
      j - i + 1 <= 2 + (window + limits.floodMaxTime) / limits.floodInterval
  {
    SendsInWindow(Clamped(interval, maxTime, buffer), log, i, j, window);
  }

  lemma QuotientAtLeast(n: int, d: int, total: int)
    requires d >= 1 && n * d <= total
    ensures n <= total / d
  {
    var q := total / d;
    assert n > q ==> n * d >= (q + 1) * d;
  }

  /** A time that the thread asks to sleep. */
  datatype Nap = Nap(from: int, until: int)

  /** A line is held for the pacing only until the credit allows it. */
  predicate HeldForPacing(limits: Limits, sendTime: int, dequeued: int, naps: seq<Nap>) {
    naps == if sendTime - dequeued > limits.floodMaxTime then [Nap(dequeued, sendTime - limits.floodMaxTime)] else []
  }

  /** It is held for room only if it did not fit on the list cleaned up at `t`, and
      only until the list was said to be ready. */
  ghost predicate HeldForRoom(limits: Limits, before: seq<FloodItem>, len: nat, t: int, asked: int, naps: seq<Nap>) {
    naps != [] ==>
      var s := Unexpired(before, t);
      && |naps| == 1 && t <= asked <= naps[0].from < naps[0].until && TotalBytes(s) + len >= limits.floodBuffer
      && naps[0].until == ReadyTime(s, TotalBytes(s) + len + 1 - limits.floodBuffer, asked)
  }

  /** A line taken off the queue at `dequeued` is held no longer than that. */
  ghost predicate HeldNoLonger(limits: Limits, sendTime: int, dequeued: int, before: seq<FloodItem>, len: nat,
                               naps: seq<Nap>) {
    exists k: nat, t, asked ::
      k <= |naps| && HeldForPacing(limits, sendTime, dequeued, naps[..k])
        && HeldForRoom(limits, before, len, t, asked, naps[k..])
  }

  lemma Holds(limits: Limits, sendTime: int, dequeued: int, before: seq<FloodItem>, len: nat, t: int, asked: int,
              first: seq<Nap>, second: seq<Nap>)
    returns (naps: seq<Nap>)
    requires HeldForPacing(limits, sendTime, dequeued, first) && HeldForRoom(limits, before, len, t, asked, second)
    ensures naps == first + second && HeldNoLonger(limits, sendTime, dequeued, before, len, naps)
  {
    naps := first + second;
    assert naps[..|first|] == first && naps[|first|..] == second;
  }

  /** What a send does to the flood list, from `before` to `after`: its load is
      what still counted; in wake order, load and line stay below the limit; and
      the order survives as long as no entry outlasts the new one. */
  predicate SendEffect(limits: Limits, before: seq<FloodItem>, clock0: int, sent: Sent, after: seq<FloodItem>,
                       clock: int) {
    && sent.load == TotalBytes(Unexpired(before, sent.at))
    && Fits(before, sent.at, sent.len, limits.floodBuffer)
    && (InWakeOrder(before) && WakeBy(before, clock0 + Penalty(limits, sent.len)) ==>
      InWakeOrder(after) && WakeBy(after, clock + Penalty(limits, sent.len)))
  }

  lemma EffectOf(limits: Limits, before: seq<FloodItem>, clock0: int, sent: Sent, cleaned: int, clock: int)
    returns (after: seq<FloodItem>)
    requires sent.load == TotalBytes(Unexpired(before, sent.at)) && clock0 <= clock
    requires Fits(before, sent.at, sent.len, limits.floodBuffer)
    ensures after == Unexpired(before, cleaned) + [FloodItem(clock + Penalty(limits, sent.len), sent.len)]
    ensures SendEffect(limits, before, clock0, sent, after, clock)
  {
    after := Unexpired(before, cleaned) + [FloodItem(clock + Penalty(limits, sent.len), sent.len)];
    WakeByMeans(before, clock0 + Penalty(limits, sent.len));
    WakeByMeans(before, clock + Penalty(limits, sent.len));
    if InWakeOrder(before) && WakeBy(before, clock0 + Penalty(limits, sent.len)) {
      OrderKept(before, cleaned, clock + Penalty(limits, sent.len), sent.len);
    }
  }

  /** No line takes a smaller penalty than one before it. */
  predicate Rising(lines: seq<nat>) {
    forall i, j :: 0 <= i < j < |lines| ==> lines[i] / 120 <= lines[j] / 120
  }

  /** What the thread keeps as it works through its lines. */
  ghost predicate SoFar(limits: Limits, lines: seq<nat>, log: seq<Sent>, sendTime: int, clock: int,
                        recent: seq<FloodItem>) {
    && |log| <= |lines| && PacedRun(limits, log) && sendTime == SendTimeTo(limits, log, |log|)
    && (log != [] ==> log[|log| - 1].at <= clock)
    && SentAll(lines, log)
    && (Rising(lines) ==> BelowLimit(limits, log))
    && (Rising(lines) && |log| < |lines| ==>
      InWakeOrder(recent) && WakeBy(recent, clock + Penalty(limits, lines[|log|])))
  }

  /** The sends are the lines, in their order. */
  ghost predicate SentAll(lines: seq<nat>, log: seq<Sent>)
    requires |log| <= |lines|
  {
    forall k :: 0 <= k < |log| ==> log[k].len == lines[k]
  }

  /** The bytes that still count stay below the limit at every send that can fit at all. */
  ghost predicate BelowLimit(limits: Limits, log: seq<Sent>) {
    forall k :: 0 <= k < |log| && log[k].len < limits.floodBuffer ==> log[k].load + log[k].len < limits.floodBuffer
  }

  lemma OneMoreLine(limits: Limits, lines: seq<nat>, log: seq<Sent>, clock0: int, before: seq<FloodItem>,
                    sent: Sent, clock: int, after: seq<FloodItem>)
    returns (longer: seq<Sent>)
    requires SoFar(limits, lines, log, SendTimeTo(limits, log, |log|), clock0, before) && |log| < |lines|
    requires sent.len == lines[|log|] && clock0 <= sent.dequeued && sent.at <= clock
    requires Paced(limits, sent, SendTimeTo(limits, log, |log|))
    requires SendEffect(limits, before, clock0, sent, after, clock)
    ensures |longer| == |log| + 1 && SoFar(limits, lines, longer,
      Later(SendTimeTo(limits, log, |log|), sent.dequeued) + Penalty(limits, sent.len), clock, after)
  {
    longer := log + [sent];
    PacedOneMore(limits, log, sent);
    if Rising(lines) {
      assert sent.len < limits.floodBuffer ==> sent.load + sent.len < limits.floodBuffer;
      BelowOneMore(limits, log, sent);
      if |longer| < |lines| {
        WakeByGrows(after, clock + Penalty(limits, sent.len), clock + Penalty(limits, lines[|longer|]));
      }
    }
  }

  lemma WakeByGrows(s: seq<FloodItem>, a: int, b: int)
    requires WakeBy(s, a) && a <= b
    ensures WakeBy(s, b)
  {
    WakeByMeans(s, a);
    WakeByMeans(s, b);
  }

  lemma BelowOneMore(limits: Limits, log: seq<Sent>, sent: Sent)
    requires BelowLimit(limits, log)
    requires sent.len < limits.floodBuffer ==> sent.load + sent.len < limits.floodBuffer
    ensures BelowLimit(limits, log + [sent])
  {
  }

  /** Out of order a paced run may break the limit: with 700 bytes allowed, lines
      of 600 and 60 bytes go out at once; for 659 more, 620 have to expire, and
      the list is taken to be ready after one second, when 60 have. */
  lemma RunMisjudges(now: int)
    requires now >= 0
    ensures var limits := Limits(1, 60, 700);
      var first := [FloodItem(now + Penalty(limits, 600), 600)];
      var list := first + [FloodItem(now + Penalty(limits, 60), 60)];
      var log := [Sent(now, now, 600, 0), Sent(now, now, 60, 600), Sent(now, now + 1, 659, 600)];
      && TotalBytes(Unexpired(first, now)) == 600 && TotalBytes(Unexpired(list, now)) == 660
      && ReadyTime(list, 660 + 659 + 1 - 700, now) == now + 1 && TotalBytes(Unexpired(list, now + 1)) == 600
      && PacedRun(limits, log) && !BelowLimit(limits, log)
  {
    ListMisjudges(now);
    PacedByCredit(now);
    var log := [Sent(now, now, 600, 0), Sent(now, now, 60, 600), Sent(now, now + 1, 659, 600)];
    assert log[2].load + log[2].len >= 700;
  }

  /** What the functions of a list say of its first entry. */
  lemma FirstOf(x: FloodItem, s: seq<FloodItem>, now: int, need: int)
    ensures Unexpired([x] + s, now) == (if x.timeWake > now then [x] + Unexpired(s, now) else Unexpired(s, now))
    ensures TotalBytes([x] + s) == x.bytes + TotalBytes(s)
    ensures ReadyTime([x] + s, need, now)
      == (if x.bytes >= need then x.timeWake else ReadyTime(s, need - x.bytes, x.timeWake))
  {
    assert ([x] + s)[1..] == s;
  }

  lemma FirstOnly(x: FloodItem, now: int, need: int)
    ensures Unexpired([x], now) == (if x.timeWake > now then [x] else [])
    ensures TotalBytes([x]) == x.bytes
    ensures x.bytes >= need ==> ReadyTime([x], need, now) == x.timeWake
  {
    FirstOf(x, [], now, need);
    assert [x] + [] == [x];
  }

  lemma ListMisjudges(now: int)
    ensures var first, list := [FloodItem(now + 6, 600)], [FloodItem(now + 6, 600)] + [FloodItem(now + 1, 60)];
      && TotalBytes(Unexpired(first, now)) == 600 && TotalBytes(Unexpired(list, now)) == 660
      && ReadyTime(list, 620, now) == now + 1 && TotalBytes(Unexpired(list, now + 1)) == 600
  {
    var a, b := FloodItem(now + 6, 600), FloodItem(now + 1, 60);
    FirstOnly(a, now, 1);
    FirstOnly(b, now, 1);
    FirstOnly(b, now + 1, 1);
    FirstOnly(b, now + 6, 20);
    FirstOf(a, [b], now, 620);
    FirstOf(a, [b], now + 1, 620);
    assert [a] + [] == [a];
  }

  lemma PacedByCredit(now: int)
    requires now >= 0
    ensures PacedRun(Limits(1, 60, 700),
      [Sent(now, now, 600, 0), Sent(now, now, 60, 600), Sent(now, now + 1, 659, 600)])
  {
    var limits := Limits(1, 60, 700);
    var x, y, z := Sent(now, now, 600, 0), Sent(now, now, 60, 600), Sent(now, now + 1, 659, 600);
    PacedOneMore(limits, [], x);
    assert [] + [x] == [x] && [x] + [y] == [x, y] && [x, y] + [z] == [x, y, z];
    PacedOneMore(limits, [x], y);
    PacedOneMore(limits, [x, y], z);
  }

  class Server {
    const limits: Limits
    const floodList: LinkedList<FloodItem>

    constructor (limits: Limits)
      requires limits.floodInterval >= 1
      ensures this.limits == limits && floodList.Valid() && floodList.Values() == [] && fresh(floodList)
    {
      this.limits := limits;
      floodList := new LinkedList<FloodItem>();
    }

    /** Waits until the line fits on the flood list, as far as waiting helps.
        The list is left as a clean-up at `cleaned` leaves it. */
    method MakeRoom(len: nat, clock: int)
      returns (at: int, ghost cleaned: int, ghost t: int, ghost asked: int, ghost naps: seq<Nap>)
      requires floodList.Valid()
      modifies floodList`head, floodList`tail, floodList`items
      modifies Elements(floodList.items)`prev, Elements(floodList.items)`next, Elements(floodList.items)`list
      ensures floodList.Valid() && clock <= at && cleaned <= at
      ensures Elements(floodList.items) <= old(Elements(floodList.items))
      ensures floodList.Values() == Unexpired(old(floodList.Values()), cleaned)
      ensures Fits(old(floodList.Values()), at, len, limits.floodBuffer)
      ensures HeldForRoom(limits, old(floodList.Values()), len, t, asked, naps)
    {
      ghost var before := floodList.Values();
      var size;
      at, size := Clean(clock);
      t := at;
      at, cleaned, asked, naps := WaitIfFull(size, len, at, before);
    }

    /** Waits where a line does not fit on a list cleaned up at `clock`. */
    method WaitIfFull(size: nat, len: nat, clock: int, ghost before: seq<FloodItem>)
      returns (at: int, ghost cleaned: int, ghost asked: int, ghost naps: seq<Nap>)
      requires floodList.Valid() && floodList.Values() == Unexpired(before, clock)
      requires size == TotalBytes(Unexpired(before, clock))
      modifies floodList`head, floodList`tail, floodList`items
      modifies Elements(floodList.items)`prev, Elements(floodList.items)`next, Elements(floodList.items)`list
      ensures floodList.Valid() && clock <= at && cleaned <= at
      ensures Elements(floodList.items) <= old(Elements(floodList.items))
      ensures floodList.Values() == Unexpired(before, cleaned)
      ensures Fits(before, at, len, limits.floodBuffer)
      ensures HeldForRoom(limits, before, len, clock, asked, naps)
    {
      at, cleaned, asked, naps := clock, clock, clock, [];
      if size + len < limits.floodBuffer {
        LineFits(before, clock, clock, clock, len, limits.floodBuffer);
      } else {
        at, cleaned, asked, naps := WaitForRoom(size + len + 1 - limits.floodBuffer, clock, before);
        LineFits(before, clock, asked, at, len, limits.floodBuffer);
      }
    }

    /** Clears out what has expired and adds up the rest. */
    method Clean(clock: int) returns (at: int, size: nat)
      requires floodList.Valid()
      modifies floodList`head, floodList`tail, floodList`items
      modifies Elements(floodList.items)`prev, Elements(floodList.items)`next, Elements(floodList.items)`list
      ensures floodList.Valid() && clock <= at && Elements(floodList.items) <= old(Elements(floodList.items))
      ensures floodList.Values() == Unexpired(old(floodList.Values()), at)
      ensures size == TotalBytes(Unexpired(old(floodList.Values()), at))
    {
      at := ReadClock(clock);
      FloodCleanup(floodList, at);
      size := FloodSize(floodList);
    }

    /** Waits for `need` bytes to expire on a list cleaned up at `clock`. */
    method WaitForRoom(need: int, clock: int, ghost before: seq<FloodItem>)
      returns (at: int, ghost cleaned: int, ghost asked: int, ghost naps: seq<Nap>)
      requires floodList.Valid() && floodList.Values() == Unexpired(before, clock)
      modifies floodList`head, floodList`tail, floodList`items
      modifies Elements(floodList.items)`prev, Elements(floodList.items)`next, Elements(floodList.items)`list
      ensures floodList.Valid() && clock <= at && cleaned <= at
      ensures Elements(floodList.items) <= old(Elements(floodList.items))
      ensures at >= ReadyTime(Unexpired(before, clock), need, asked)
      ensures floodList.Values() == Unexpired(before, cleaned)
      ensures clock <= asked && |naps| <= 1
      ensures naps != [] ==>
        asked <= naps[0].from < naps[0].until == ReadyTime(Unexpired(before, clock), need, asked)
    {
      var now := ReadClock(clock);
      asked := now;
      var time := FloodReady(floodList, need, now);
      at := ReadClock(now);
      cleaned, naps := clock, [];
      if at < time {
        naps := [Nap(at, time)];
        at := Sleep(at, time - at);
        at := ReadClock(at);
        FloodCleanup(floodList, at);
        cleaned := at;
        UnexpiredTwice(before, clock, at);
      }
    }

    /** Sends one line: waits until the credit of the pacing allows it, then
        until the flood list has room, then sends and writes it down. */
    method SendLine(len: nat, sendTime0: int, clock0: int)
      returns (sendTime: int, clock: int, ghost sent: Sent, ghost after: seq<FloodItem>, ghost naps: seq<Nap>)
      requires floodList.Valid()
      modifies floodList`head, floodList`tail, floodList`items
      modifies Elements(floodList.items)`prev, Elements(floodList.items)`next, Elements(floodList.items)`list
      ensures floodList.Valid() && fresh(Elements(floodList.items) - old(Elements(floodList.items)))
      ensures sent.len == len && clock0 <= sent.dequeued && sent.at <= clock && Paced(limits, sent, sendTime0)
      ensures sendTime == Later(sendTime0, sent.dequeued) + limits.floodInterval + len / 120
      ensures after == floodList.Values() && SendEffect(limits, old(floodList.Values()), clock0, sent, after, clock)
      ensures HeldNoLonger(limits, Later(sendTime0, sent.dequeued), sent.dequeued, old(floodList.Values()), len, naps)
    {
      ghost var before := floodList.Values();
      var now := ReadClock(clock0);
      sendTime := Later(sendTime0, now);
      var awake := now;
      ghost var first: seq<Nap>, second, t, asked := [], [], 0, 0;
      if sendTime - now > limits.floodMaxTime {
        first := [Nap(now, sendTime - limits.floodMaxTime)];
        awake := Sleep(now, sendTime - now - limits.floodMaxTime);
      }
      clock, sent, after, t, asked, second := Deliver(len, awake, clock0, now);
      naps := Holds(limits, sendTime, now, before, len, t, asked, first, second);
      sendTime := sendTime + limits.floodInterval + len / 120;
    }

    /** Makes room, sends, and writes the line down with the time it stops counting. */
    method Deliver(len: nat, awake: int, ghost clock0: int, ghost dequeued: int)
      returns (clock: int, ghost sent: Sent, ghost after: seq<FloodItem>, ghost t: int, ghost asked: int,
               ghost naps: seq<Nap>)
      requires floodList.Valid() && clock0 <= awake
      modifies floodList`head, floodList`tail, floodList`items
      modifies Elements(floodList.items)`prev, Elements(floodList.items)`next, Elements(floodList.items)`list
      ensures floodList.Valid() && fresh(Elements(floodList.items) - old(Elements(floodList.items)))
      ensures awake <= sent.at <= clock && sent.dequeued == dequeued && sent.len == len
      ensures after == floodList.Values() && SendEffect(limits, old(floodList.Values()), clock0, sent, after, clock)
      ensures HeldForRoom(limits, old(floodList.Values()), len, t, asked, naps)
    {
      ghost var before := floodList.Values();
      var at;
      ghost var cleaned, kept, entry;
      at, clock, cleaned, kept, entry, t, asked, naps := RoomAndEntry(len, awake, before);
      sent := Sent(dequeued, at, len, TotalBytes(Unexpired(before, at)));
      after := EffectOf(limits, before, clock0, sent, cleaned, clock);
    }

    method RoomAndEntry(len: nat, awake: int, ghost before: seq<FloodItem>)
      returns (at: int, clock: int, ghost cleaned: int, ghost kept: seq<FloodItem>, ghost entry: FloodItem,
               ghost t: int, ghost asked: int, ghost naps: seq<Nap>)
      requires floodList.Valid() && before == floodList.Values()
      modifies floodList`head, floodList`tail, floodList`items
      modifies Elements(floodList.items)`prev, Elements(floodList.items)`next, Elements(floodList.items)`list
      ensures floodList.Valid() && fresh(Elements(floodList.items) - old(Elements(floodList.items)))
      ensures awake <= at <= clock && Fits(before, at, len, limits.floodBuffer)
      ensures HeldForRoom(limits, before, len, t, asked, naps)
      ensures kept == Unexpired(before, cleaned) && entry == FloodItem(clock + Penalty(limits, len), len)
      ensures floodList.Values() == kept + [entry]
    {
      at, cleaned, t, asked, naps := MakeRoom(len, awake);
      kept := floodList.Values();
      clock := ReadClock(at);
      var written := FloodItem(clock + limits.floodInterval + len / 120, len);
      entry := written;
      WriteDown(written);
    }

    method WriteDown(entry: FloodItem)
      requires floodList.Valid()
      modifies floodList`head, floodList`tail, floodList`items
      modifies Elements(floodList.items)`prev, Elements(floodList.items)`next
      ensures floodList.Valid() && fresh(Elements(floodList.items) - old(Elements(floodList.items)))
      ensures floodList.Values() == old(floodList.Values()) + [entry]
    {
      var item := new Item(entry);
      Append(item);
    }

    method Append(item: Item<FloodItem>)
      requires floodList.Valid() && item !in floodList.items
      modifies floodList`head, floodList`tail, floodList`items
      modifies Elements(floodList.items)`prev, Elements(floodList.items)`next
      modifies item`prev, item`next, item`list
      ensures floodList.Valid() && Elements(floodList.items) == old(Elements(floodList.items)) + {item}
      ensures floodList.Values() == old(floodList.Values()) + [item.data]
    {
      floodList.Add(item, AtTail);
    }

    /** The thread over a whole queue of lines. Every run is paced, and as long as
        no line takes a smaller penalty than one before it, the bytes that still
        count stay below the limit at every send of a line that could fit at all. */
    method TransmitThread(lines: seq<nat>, clock0: int) returns (ghost log: seq<Sent>)
      requires floodList.Valid() && floodList.Values() == []
      modifies floodList`head, floodList`tail, floodList`items
      modifies Elements(floodList.items)`prev, Elements(floodList.items)`next, Elements(floodList.items)`list
      ensures |log| == |lines| && SentAll(lines, log) && PacedRun(limits, log)
      ensures Rising(lines) ==> BelowLimit(limits, log)
    {
      log := [];
      ghost var recent := [];
      var sendTime, clock := 0, clock0;
      for i := 0 to |lines|
        invariant floodList.Valid() && fresh(Elements(floodList.items) - old(Elements(floodList.items)))
        invariant recent == floodList.Values() && |log| == i && SoFar(limits, lines, log, sendTime, clock, recent)
      {
        ghost var sent, naps;
        ghost var clock1, before := clock, recent;
        sendTime, clock, sent, recent, naps := SendLine(lines[i], sendTime, clock);
        log := OneMoreLine(limits, lines, log, clock1, before, sent, clock, recent);
      }
    }
  }
}
