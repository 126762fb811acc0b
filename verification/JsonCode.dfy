/** The printer and the parser as loops over buffers and pointers. A pointer
    into a text is the text from there on. */
module JsonCode {
  import opened Rows
  import opened JsonText
  import opened JsonPrinting

  // ----- buffers -----

  method Put(buffer: array<char>, at: nat, c: char) returns (next: nat)
    requires at < buffer.Length
    modifies buffer
    ensures next == at + 1 && buffer[..next] == old(buffer[..at]) + [c]
  {
    buffer[at] := c;
    next := at + 1;
  }

  /** Copies a string and its terminator. */
  method StrCpy(buffer: array<char>, at: nat, s: string) returns (next: nat)
    requires at + |s| < buffer.Length
    modifies buffer
    ensures next == at + |s| && buffer[..next] == old(buffer[..at]) + s && buffer[next] == NUL
  {
    ghost var before := buffer[..at];
    next := at;
    for i := 0 to |s|
      invariant next == at + i && buffer[..next] == before + s[..i]
    {
      assert s[..i + 1] == s[..i] + [s[i]];
      next := Put(buffer, next, s[i]);
    }
    assert s[..|s|] == s;
    buffer[next] := NUL;
  }

  /** Ends a text and takes it as the string it is. */
  method Finish(buffer: array<char>, at: nat, ghost text: string) returns (out: string)
    requires at < buffer.Length && buffer[..at] == text && NUL !in text
    modifies buffer
    ensures out == text
  {
    buffer[at] := NUL;
    assert buffer[..][..at] == buffer[..at];
    UpToEnds(buffer[..], NUL, at);
    out := UpTo(buffer[..], NUL);
  }

  // ----- printing strings and numbers -----

  function Cost(c: char): nat {
    if c as int < 32 || c == '\"' || c == '\\' then 2 else 1
  }

  /** The room that a string is given, apart from the quotes and the terminator. */
  function Estimate(s: string): nat {
    if s == "" then 0 else Cost(s[0]) + Estimate(s[1..])
  }

  lemma {:induction false} EstimateEnough(s: string)
    ensures |EscapedAll(s)| <= Estimate(s)
    ensures |Quoted(s)| + 1 <= Estimate(s) + 3
  {
    if s != "" {
      EstimateEnough(s[1..]);
    }
  }

  lemma {:induction false} EscapedNoNul(s: string)
    ensures NUL !in EscapedAll(s) && NUL !in Quoted(s)
  {
    if s != "" {
      EscapedNoNul(s[1..]);
    }
  }

  method PutEscaped(buffer: array<char>, at: nat, c: char) returns (next: nat)
    requires at + Cost(c) <= buffer.Length
    modifies buffer
    ensures next == at + |Escaped(c)| && buffer[..next] == old(buffer[..at]) + Escaped(c)
  {
    if c as int > 31 && c != '\"' && c != '\\' {
      next := Put(buffer, at, c);
    } else {
      next := Put(buffer, at, '\\');
      if Letter(c) != "" {
        next := Put(buffer, next, Letter(c)[0]);
      } else {
        next := next - 1;
        assert buffer[..next] == buffer[..next + 1][..next];
      }
    }
  }

  /** The counting pass. */
  method CountCosts(s: string) returns (len: nat)
    ensures len == Estimate(s)
  {
    len := 0;
    var ptr := s;
    while ptr != ""
      invariant len + Estimate(ptr) == Estimate(s)
      decreases |ptr|
    {
      len := len + 1;
      if ptr[0] as int < 32 || ptr[0] == '\"' || ptr[0] == '\\' {
        len := len + 1;
      }
      ptr := ptr[1..];
    }
  }

  method PrintString(s: string) returns (out: string)
    ensures out == Quoted(s)
  {
    var len := CountCosts(s);
    var buffer := new char[len + 3];
    var at := Put(buffer, 0, '\"');
    at := PutAll(buffer, at, s);
    at := Put(buffer, at, '\"');
    EscapedNoNul(s);
    out := Finish(buffer, at, Quoted(s));
  }

  lemma OneMoreChar(done: string, ptr: string)
    requires ptr != ""
    ensures done + Escaped(ptr[0]) + EscapedAll(ptr[1..]) == done + EscapedAll(ptr)
    ensures Estimate(ptr) == Cost(ptr[0]) + Estimate(ptr[1..]) && |Escaped(ptr[0])| <= Cost(ptr[0])
  {
    var first, rest := Escaped(ptr[0]), EscapedAll(ptr[1..]);
    assert EscapedAll(ptr) == first + rest;
    Reassociate(done, first, rest);
    NeverLonger(ptr[0]);
  }

  lemma NeverLonger(c: char)
    ensures |Escaped(c)| <= Cost(c)
  {
  }

  method PutAll(buffer: array<char>, at: nat, s: string) returns (next: nat)
    requires at + Estimate(s) + 2 <= buffer.Length
    modifies buffer
    ensures next <= at + Estimate(s) && buffer[..next] == old(buffer[..at]) + EscapedAll(s)
  {
    ghost var before := buffer[..at];
    var ptr := s;
    next := at;
    while ptr != ""
      invariant next + Estimate(ptr) <= at + Estimate(s)
      invariant buffer[..next] + EscapedAll(ptr) == before + EscapedAll(s)
      decreases |ptr|
    {
      OneMoreChar(buffer[..next], ptr);
      next := PutEscaped(buffer, next, ptr[0]);
      ptr := ptr[1..];
    }
    assert buffer[..next] + "" == buffer[..next];
  }

  lemma {:induction false} DigitsShort(n: nat, k: nat, limit: nat)
    requires n < limit && limit == TenTo(k) && k > 0
    ensures |Digits(n)| <= k
    decreases k
  {
    if n >= 10 {
      DigitsShort(n / 10, k - 1, TenTo(k - 1));
    }
  }

  function TenTo(k: nat): nat {
    if k == 0 then 1 else 10 * TenTo(k - 1)
  }

  method PrintNumber(n: int) returns (out: string)
    requires In32Bits(n)
    ensures out == Decimal(n)
  {
    var buffer := new char[21];
    var size := if n < 0 then -n else n;
    assert TenTo(5) == 100000;
    DigitsShort(size, 10, TenTo(10));
    DigitsAreDigits(size);
    var at := StrCpy(buffer, 0, Decimal(n));
    out := Finish(buffer, at, Decimal(n));
  }

  // ----- printing arrays and objects -----

  lemma {:induction false} PrintNoNul(v: Json, depth: nat, fmt: bool)
    ensures NUL !in Print(v, depth, fmt)
  {
    match v
    case Number(n) => DecimalNoNul(n);
    case String(s) => EscapedNoNul(s);
    case Array(items) =>
      ItemsNoNul(items, depth + 1, fmt);
      BracketedNoNul(PrintItems(items, depth + 1, fmt));
    case Object(members) =>
      MembersNoNul(members, depth + 1, fmt);
      BracedNoNul(PrintMembers(members, depth + 1, fmt), depth, fmt);
    case _ =>
  }

  lemma DecimalNoNul(n: int)
    ensures NUL !in Decimal(n)
  {
    DigitsAreDigits(if n < 0 then -n else n);
  }

  lemma BracketedNoNul(body: string)
    requires NUL !in body
    ensures NUL !in "[" + body + "]"
  {
  }

  lemma BracedNoNul(body: string, depth: nat, fmt: bool)
    requires NUL !in body
    ensures NUL !in "{" + Roomy(fmt, "\n") + body + Roomy(fmt, Tabs(depth)) + "}"
  {
    TabsNoNul(depth);
  }

  lemma {:induction false} TabsNoNul(n: nat)
    ensures NUL !in Tabs(n)
  {
    if n > 0 {
      TabsNoNul(n - 1);
    }
  }

  lemma {:induction false} ItemsNoNul(items: Items, depth: nat, fmt: bool)
    ensures NUL !in PrintItems(items, depth, fmt)
  {
    if items.Item? {
      PrintNoNul(items.value, depth, fmt);
      ItemsNoNul(items.more, depth, fmt);
    }
  }

  lemma {:induction false} MembersNoNul(members: Members, depth: nat, fmt: bool)
    ensures NUL !in PrintMembers(members, depth, fmt)
  {
    if members.Member? {
      TabsNoNul(depth);
      EscapedNoNul(members.name);
      PrintNoNul(members.value, depth, fmt);
      MembersNoNul(members.more, depth, fmt);
    }
  }

  function Count(items: Items): nat {
    if items.NoItem? then 0 else 1 + Count(items.more)
  }

  function CountMembers(members: Members): nat {
    if members.NoMember? then 0 else 1 + CountMembers(members.more)
  }

  function Entries(items: Items, depth: nat, fmt: bool): seq<string> {
    if items.NoItem? then [] else [Print(items.value, depth, fmt)] + Entries(items.more, depth, fmt)
  }

  function Names(members: Members): seq<string> {
    if members.NoMember? then [] else [Quoted(members.name)] + Names(members.more)
  }

  function MemberEntries(members: Members, depth: nat, fmt: bool): seq<string> {
    if members.NoMember? then [] else [Print(members.value, depth, fmt)] + MemberEntries(members.more, depth, fmt)
  }

  /** The lengths of the parts with `extra` characters for each. */
  function Weight(entries: seq<string>, extra: nat): nat {
    if entries == [] then 0 else |entries[0]| + extra + Weight(entries[1..], extra)
  }

  function Extra(fmt: bool, n: nat): nat {
    if fmt then n else 0
  }

  function Separator(fmt: bool, last: bool): string {
    if last then "" else "," + Roomy(fmt, " ")
  }

  function Join(entries: seq<string>, fmt: bool): string {
    if entries == [] then "" else entries[0] + Separator(fmt, |entries| == 1) + Join(entries[1..], fmt)
  }

  lemma {:induction false} JoinIsItems(items: Items, depth: nat, fmt: bool)
    ensures Join(Entries(items, depth, fmt), fmt) == PrintItems(items, depth, fmt)
    ensures |Entries(items, depth, fmt)| == Count(items)
  {
    if items.Item? {
      JoinIsItems(items.more, depth, fmt);
      assert Entries(items, depth, fmt)[1..] == Entries(items.more, depth, fmt);
    }
  }

  lemma OneMoreEntry(done: string, entries: seq<string>, i: nat, fmt: bool)
    requires i < |entries|
    ensures done + entries[i] + Separator(fmt, i == |entries| - 1) + Join(entries[i + 1..], fmt)
      == done + Join(entries[i..], fmt)
    ensures forall extra :: Weight(entries[i..], extra) == |entries[i]| + extra + Weight(entries[i + 1..], extra)
  {
    assert entries[i..][1..] == entries[i + 1..];
    RegroupFour(done, entries[i], Separator(fmt, i == |entries| - 1), Join(entries[i + 1..], fmt));
    Reassociate(entries[i], Separator(fmt, i == |entries| - 1), Join(entries[i + 1..], fmt));
  }

  method PutEntry(buffer: array<char>, at: nat, entry: string, last: bool, fmt: bool) returns (next: nat)
    requires at + |entry| + 2 + Extra(fmt, 1) < buffer.Length
    modifies buffer
    ensures next == at + |entry| + |Separator(fmt, last)|
    ensures buffer[..next] == old(buffer[..at]) + entry + Separator(fmt, last)
  {
    next := StrCpy(buffer, at, entry);
    if !last {
      next := Put(buffer, next, ',');
      if fmt {
        next := Put(buffer, next, ' ');
      }
      buffer[next] := NUL;
    }
  }

  /** The estimate for an array is enough at every write. */
  method ComposeArray(entries: seq<string>, fmt: bool, len: nat) returns (out: string)
    requires len == 5 + Weight(entries, 2 + Extra(fmt, 1)) && NUL !in Join(entries, fmt)
    ensures out == "[" + Join(entries, fmt) + "]"
  {
    var buffer := new char[len];
    var at := Put(buffer, 0, '[');
    buffer[at] := NUL;
    at := PutEntries(buffer, at, entries, fmt);
    at := Put(buffer, at, ']');
    ghost var text := "[" + Join(entries, fmt) + "]";
    BracketedNoNul(Join(entries, fmt));
    out := Finish(buffer, at, text);
  }

  method PutEntries(buffer: array<char>, at: nat, entries: seq<string>, fmt: bool) returns (next: nat)
    requires at + Weight(entries, 2 + Extra(fmt, 1)) + 4 <= buffer.Length
    modifies buffer
    ensures next + 4 <= buffer.Length && buffer[..next] == old(buffer[..at]) + Join(entries, fmt)
  {
    ghost var before := buffer[..at];
    next := at;
    assert entries[0..] == entries;
    for i := 0 to |entries|
      invariant next + Weight(entries[i..], 2 + Extra(fmt, 1)) + 4 <= buffer.Length
      invariant buffer[..next] + Join(entries[i..], fmt) == before + Join(entries, fmt)
    {
      OneMoreEntry(buffer[..next], entries, i, fmt);
      next := PutEntry(buffer, next, entries[i], i == |entries| - 1, fmt);
    }
    NothingLeft(buffer[..next], Join(entries[|entries|..], fmt));
  }

  lemma NothingLeft(s: string, t: string)
    requires t == ""
    ensures s + t == s
  {
  }

  function MemberText(name: string, entry: string, depth: nat, fmt: bool, last: bool): string {
    Roomy(fmt, Tabs(depth)) + name + ":" + Roomy(fmt, "\t") + entry + (if last then "" else ",") + Roomy(fmt, "\n")
  }

  function JoinMembers(names: seq<string>, entries: seq<string>, depth: nat, fmt: bool): string
    requires |names| == |entries|
  {
    if names == [] then ""
    else MemberText(names[0], entries[0], depth, fmt, |names| == 1) + JoinMembers(names[1..], entries[1..], depth, fmt)
  }

  lemma {:induction false} JoinIsMembers(members: Members, depth: nat, fmt: bool)
    ensures |Names(members)| == |MemberEntries(members, depth, fmt)| == CountMembers(members)
    ensures JoinMembers(Names(members), MemberEntries(members, depth, fmt), depth, fmt)
      == PrintMembers(members, depth, fmt)
  {
    if members.Member? {
      JoinIsMembers(members.more, depth, fmt);
      assert Names(members)[1..] == Names(members.more);
      assert MemberEntries(members, depth, fmt)[1..] == MemberEntries(members.more, depth, fmt);
    }
  }

  lemma OneMoreMember(done: string, names: seq<string>, entries: seq<string>, i: nat, depth: nat, fmt: bool)
    requires i < |names| == |entries|
    ensures done + MemberText(names[i], entries[i], depth, fmt, i == |names| - 1)
      + JoinMembers(names[i + 1..], entries[i + 1..], depth, fmt)
        == done + JoinMembers(names[i..], entries[i..], depth, fmt)
    ensures forall extra :: Weight(entries[i..], extra) == |entries[i]| + extra + Weight(entries[i + 1..], extra)
    ensures Weight(names[i..], 0) == |names[i]| + Weight(names[i + 1..], 0)
  {
    assert entries[i..][1..] == entries[i + 1..] && names[i..][1..] == names[i + 1..];
    var m := MemberText(names[i], entries[i], depth, fmt, i == |names| - 1);
    Reassociate(done, m, JoinMembers(names[i + 1..], entries[i + 1..], depth, fmt));
  }

  method PutTabs(buffer: array<char>, at: nat, n: nat) returns (next: nat)
    requires at + n <= buffer.Length
    modifies buffer
    ensures next == at + n && buffer[..next] == old(buffer[..at]) + Tabs(n)
  {
    next := at;
    for j := 0 to n
      invariant next == at + j && buffer[..next] == old(buffer[..at]) + Tabs(j)
    {
      next := Put(buffer, next, '\t');
    }
  }

  method PutRoomy(buffer: array<char>, at: nat, fmt: bool, c: char) returns (next: nat)
    requires at + Extra(fmt, 1) <= buffer.Length
    modifies buffer
    ensures next == at + Extra(fmt, 1) && buffer[..next] == old(buffer[..at]) + Roomy(fmt, [c])
  {
    next := at;
    if fmt {
      next := Put(buffer, at, c);
    }
  }

  method PutRoomyTabs(buffer: array<char>, at: nat, fmt: bool, n: nat) returns (next: nat)
    requires at + Extra(fmt, n) <= buffer.Length
    modifies buffer
    ensures next == at + Extra(fmt, n) && buffer[..next] == old(buffer[..at]) + Roomy(fmt, Tabs(n))
  {
    next := at;
    if fmt {
      next := PutTabs(buffer, at, n);
    }
  }

  method PutMember(buffer: array<char>, at: nat, name: string, entry: string, depth: nat, last: bool, fmt: bool)
    returns (next: nat)
    requires at + |name| + |entry| + 2 + Extra(fmt, 2 + depth) < buffer.Length
    modifies buffer
    ensures next <= at + |name| + |entry| + 2 + Extra(fmt, 2 + depth)
    ensures buffer[..next] == old(buffer[..at]) + MemberText(name, entry, depth, fmt, last)
  {
    ghost var before := buffer[..at];
    next := PutRoomyTabs(buffer, at, fmt, depth);
    next := StrCpy(buffer, next, name);
    next := Put(buffer, next, ':');
    next := PutRoomy(buffer, next, fmt, '\t');
    next := StrCpy(buffer, next, entry);
    if !last {
      next := Put(buffer, next, ',');
    }
    next := PutRoomy(buffer, next, fmt, '\n');
    buffer[next] := NUL;
    RegroupText(before, Roomy(fmt, Tabs(depth)), name, Roomy(fmt, "\t"), entry, if last then "" else ",",
      Roomy(fmt, "\n"));
  }

  lemma RegroupText(z: string, a: string, b: string, c: string, d: string, e: string, f: string)
    ensures z + a + b + ":" + c + d + e + f == z + (a + b + ":" + c + d + e + f)
  {
  }

  /** The estimate for an object is enough at every write; `depth` is its own
      depth, one more than the depth of what it stands in. */
  method ComposeObject(names: seq<string>, entries: seq<string>, depth: nat, fmt: bool, len: nat) returns (out: string)
    requires |names| == |entries| && depth > 0
    requires len == 7 + Extra(fmt, depth) + Weight(names, 0) + Weight(entries, 2 + Extra(fmt, 2 + depth))
    requires NUL !in JoinMembers(names, entries, depth, fmt)
    ensures out == "{" + Roomy(fmt, "\n") + JoinMembers(names, entries, depth, fmt) + Roomy(fmt, Tabs(depth - 1)) + "}"
  {
    var buffer := new char[len];
    var at := Put(buffer, 0, '{');
    at := PutRoomy(buffer, at, fmt, '\n');
    buffer[at] := NUL;
    at := PutMembers(buffer, at, names, entries, depth, fmt);
    assert buffer[..at] == "{" + Roomy(fmt, "\n") + JoinMembers(names, entries, depth, fmt);
    at := PutRoomyTabs(buffer, at, fmt, depth - 1);
    at := Put(buffer, at, '}');
    ghost var text := "{" + Roomy(fmt, "\n") + JoinMembers(names, entries, depth, fmt) + Roomy(fmt, Tabs(depth - 1))
      + "}";
    BracedNoNul(JoinMembers(names, entries, depth, fmt), depth - 1, fmt);
    out := Finish(buffer, at, text);
  }

  method PutMembers(buffer: array<char>, at: nat, names: seq<string>, entries: seq<string>, depth: nat, fmt: bool)
    returns (next: nat)
    requires |names| == |entries|
    requires at + Weight(names, 0) + Weight(entries, 2 + Extra(fmt, 2 + depth)) + 2 + Extra(fmt, depth) <= buffer.Length
    modifies buffer
    ensures next + 2 + Extra(fmt, depth) <= buffer.Length
    ensures buffer[..next] == old(buffer[..at]) + JoinMembers(names, entries, depth, fmt)
  {
    ghost var before := buffer[..at];
    next := at;
    assert entries[0..] == entries && names[0..] == names;
    for i := 0 to |names|
      invariant next + Weight(names[i..], 0) + Weight(entries[i..], 2 + Extra(fmt, 2 + depth)) + 2 + Extra(fmt, depth)
        <= buffer.Length
      invariant buffer[..next] + JoinMembers(names[i..], entries[i..], depth, fmt)
        == before + JoinMembers(names, entries, depth, fmt)
    {
      OneMoreMember(buffer[..next], names, entries, i, depth, fmt);
      next := PutMember(buffer, next, names[i], entries[i], depth, i == |names| - 1, fmt);
    }
    NothingLeft(buffer[..next], JoinMembers(names[|names|..], entries[|names|..], depth, fmt));
  }

  // ----- printing values -----

  function Size(v: Json): nat {
    match v
    case Array(items) => 1 + SizeItems(items)
    case Object(members) => 1 + SizeMembers(members)
    case _ => 0
  }

  function SizeItems(items: Items): nat {
    if items.NoItem? then 0 else 1 + Size(items.value) + SizeItems(items.more)
  }

  function SizeMembers(members: Members): nat {
    if members.NoMember? then 0 else 1 + Size(members.value) + SizeMembers(members.more)
  }

  method PrintValue(v: Json, depth: nat, fmt: bool) returns (out: string)
    requires WellFormed(v)
    ensures out == Print(v, depth, fmt)
    decreases Size(v), 0
  {
    match v
    case Null => out := "null";
    case False => out := "false";
    case True => out := "true";
    case Number(n) => out := PrintNumber(n);
    case String(s) => out := PrintString(s);
    case Array(items) => out := PrintArray(items, depth, fmt);
    case Object(members) => out := PrintObject(members, depth, fmt);
  }

  method CountItems(items: Items) returns (n: nat)
    ensures n == Count(items)
  {
    var child := items;
    n := 0;
    while child.Item?
      invariant n + Count(child) == Count(items)
      decreases child
    {
      child, n := child.more, n + 1;
    }
  }

  method PrintArray(items: Items, depth: nat, fmt: bool) returns (out: string)
    requires WellFormedItems(items)
    ensures out == Print(Array(items), depth, fmt)
    decreases SizeItems(items), 1
  {
    var n := CountItems(items);
    var entries := new string[n](_ => "");
    var len := CollectEntries(items, entries, depth + 1, fmt);
    JoinIsItems(items, depth + 1, fmt);
    ItemsNoNul(items, depth + 1, fmt);
    out := ComposeArray(entries[..], fmt, len);
  }

  /** The first `i` entries are in the table and in the room counted so far. */
  ghost predicate PartWay(table: seq<string>, i: nat, child: Items, items: Items, depth: nat, fmt: bool, len: nat) {
    && i + Count(child) == |table|
    && table[..i] + Entries(child, depth, fmt) == Entries(items, depth, fmt)
    && len + Weight(Entries(child, depth, fmt), 2 + Extra(fmt, 1))
      == 5 + Weight(Entries(items, depth, fmt), 2 + Extra(fmt, 1))
  }

  lemma PartWayOn(table: seq<string>, i: nat, child: Items, items: Items, depth: nat, fmt: bool, len: nat)
    requires PartWay(table, i, child, items, depth, fmt, len) && child.Item?
    ensures i < |table|
    ensures var p := Print(child.value, depth, fmt);
      PartWay(table[i := p], i + 1, child.more, items, depth, fmt, len + |p| + 2 + Extra(fmt, 1))
  {
    var p, rest := Print(child.value, depth, fmt), Entries(child.more, depth, fmt);
    assert Entries(child, depth, fmt) == [p] + rest && ([p] + rest)[1..] == rest;
    Reassociate(table[..i], [p], rest);
    OneFurther(table, i, p);
  }

  lemma OneFurther(table: seq<string>, i: nat, p: string)
    requires i < |table|
    ensures table[i := p][..i + 1] == table[..i] + [p]
  {
  }

  lemma PartWayDone(table: seq<string>, i: nat, items: Items, depth: nat, fmt: bool, len: nat)
    requires PartWay(table, i, NoItem, items, depth, fmt, len)
    ensures table == Entries(items, depth, fmt) && len == 5 + Weight(Entries(items, depth, fmt), 2 + Extra(fmt, 1))
  {
  }

  /** Prints the items into a table and adds up the room that they take. */
  method CollectEntries(items: Items, entries: array<string>, depth: nat, fmt: bool) returns (len: nat)
    requires WellFormedItems(items) && entries.Length == Count(items)
    modifies entries
    ensures entries[..] == Entries(items, depth, fmt)
    ensures len == 5 + Weight(Entries(items, depth, fmt), 2 + Extra(fmt, 1))
    decreases SizeItems(items), 0
  {
    var child, i := items, 0;
    len := 5;
    while child.Item?
      invariant SizeItems(child) <= SizeItems(items) && WellFormedItems(child)
      invariant PartWay(entries[..], i, child, items, depth, fmt, len)
      decreases child
    {
      var ret := PrintValue(child.value, depth, fmt);
      PartWayOn(entries[..], i, child, items, depth, fmt, len);
      ghost var table := entries[..];
      entries[i] := ret;
      assert entries[..] == table[i := ret];
      len := len + |ret| + 2 + Extra(fmt, 1);
      child, i := child.more, i + 1;
    }
    PartWayDone(entries[..], i, items, depth, fmt, len);
  }

  method CountOfMembers(members: Members) returns (n: nat)
    ensures n == CountMembers(members)
  {
    var child := members;
    n := 0;
    while child.Member?
      invariant n + CountMembers(child) == CountMembers(members)
      decreases child
    {
      child, n := child.more, n + 1;
    }
  }

  lemma ObjectText(members: Members, depth: nat, fmt: bool)
    returns (names: seq<string>, entries: seq<string>, text: string)
    ensures names == Names(members) && entries == MemberEntries(members, depth + 1, fmt)
    ensures |names| == |entries| && NUL !in JoinMembers(names, entries, depth + 1, fmt)
    ensures text == Print(Object(members), depth, fmt)
    ensures text == "{" + Roomy(fmt, "\n") + JoinMembers(names, entries, depth + 1, fmt) + Roomy(fmt, Tabs(depth)) + "}"
  {
    names, entries, text := Names(members), MemberEntries(members, depth + 1, fmt), Print(Object(members), depth, fmt);
    JoinIsMembers(members, depth + 1, fmt);
    MembersNoNul(members, depth + 1, fmt);
  }

  method PrintObject(members: Members, depth: nat, fmt: bool) returns (out: string)
    requires WellFormedMembers(members)
    ensures out == Print(Object(members), depth, fmt)
    decreases SizeMembers(members), 1
  {
    var n := CountOfMembers(members);
    var names, entries := new string[n](_ => ""), new string[n](_ => "");
    var len := CollectMembers(members, names, entries, depth + 1, fmt);
    out := ComposeMembers(members, names[..], entries[..], depth, fmt, len);
  }

  method ComposeMembers(ghost members: Members, names: seq<string>, entries: seq<string>, depth: nat, fmt: bool,
                        len: nat)
    returns (out: string)
    requires WellFormedMembers(members)
    requires names == Names(members) && entries == MemberEntries(members, depth + 1, fmt)
    requires len == 7 + Extra(fmt, depth + 1) + Weight(names, 0) + Weight(entries, 2 + Extra(fmt, 3 + depth))
    ensures out == Print(Object(members), depth, fmt)
  {
    ghost var ns, es, text := ObjectText(members, depth, fmt);
    out := ComposeObject(names, entries, depth + 1, fmt, len);
  }

  ghost predicate MembersPartWay(names: seq<string>, entries: seq<string>, i: nat, child: Members, members: Members,
                                 depth: nat, fmt: bool, len: nat) {
    && i + CountMembers(child) == |names| == |entries|
    && names[..i] + Names(child) == Names(members)
    && entries[..i] + MemberEntries(child, depth, fmt) == MemberEntries(members, depth, fmt)
    && len + Weight(Names(child), 0) + Weight(MemberEntries(child, depth, fmt), 2 + Extra(fmt, 2 + depth))
      == 7 + Extra(fmt, depth) + Weight(Names(members), 0)
        + Weight(MemberEntries(members, depth, fmt), 2 + Extra(fmt, 2 + depth))
  }

  lemma MembersPartWayOn(names: seq<string>, entries: seq<string>, i: nat, child: Members, members: Members,
                         depth: nat, fmt: bool, len: nat)
    requires MembersPartWay(names, entries, i, child, members, depth, fmt, len) && child.Member?
    ensures i < |names| == |entries|
    ensures var n, p := Quoted(child.name), Print(child.value, depth, fmt);
      MembersPartWay(names[i := n], entries[i := p], i + 1, child.more, members, depth, fmt,
        len + |p| + |n| + 2 + Extra(fmt, 2 + depth))
  {
    var n, p, ns, ps := Quoted(child.name), Print(child.value, depth, fmt), Names(child.more),
      MemberEntries(child.more, depth, fmt);
    assert Names(child) == [n] + ns && ([n] + ns)[1..] == ns;
    assert MemberEntries(child, depth, fmt) == [p] + ps && ([p] + ps)[1..] == ps;
    Reassociate(names[..i], [n], ns);
    Reassociate(entries[..i], [p], ps);
    OneFurther(names, i, n);
    OneFurther(entries, i, p);
  }

  lemma MembersPartWayDone(names: seq<string>, entries: seq<string>, i: nat, members: Members, depth: nat,
                           fmt: bool, len: nat)
    requires MembersPartWay(names, entries, i, NoMember, members, depth, fmt, len)
    ensures names == Names(members) && entries == MemberEntries(members, depth, fmt)
    ensures len == 7 + Extra(fmt, depth) + Weight(Names(members), 0)
      + Weight(MemberEntries(members, depth, fmt), 2 + Extra(fmt, 2 + depth))
  {
  }

  method CollectMembers(members: Members, names: array<string>, entries: array<string>, depth: nat, fmt: bool)
    returns (len: nat)
    requires WellFormedMembers(members) && names.Length == entries.Length == CountMembers(members) && names != entries
    modifies names, entries
    ensures names[..] == Names(members) && entries[..] == MemberEntries(members, depth, fmt)
    ensures len == 7 + Extra(fmt, depth) + Weight(Names(members), 0)
      + Weight(MemberEntries(members, depth, fmt), 2 + Extra(fmt, 2 + depth))
    decreases SizeMembers(members), 0
  {
    var child, i := members, 0;
    len := 7 + Extra(fmt, depth);
    while child.Member?
      invariant SizeMembers(child) <= SizeMembers(members) && WellFormedMembers(child)
      invariant MembersPartWay(names[..], entries[..], i, child, members, depth, fmt, len)
      decreases child
    {
      var str := PrintString(child.name);
      var ret := PrintValue(child.value, depth, fmt);
      MembersPartWayOn(names[..], entries[..], i, child, members, depth, fmt, len);
      ghost var table, others := names[..], entries[..];
      names[i], entries[i] := str, ret;
      assert names[..] == table[i := str] && entries[..] == others[i := ret];
      len := len + |ret| + |str| + 2 + Extra(fmt, 2 + depth);
      child, i := child.more, i + 1;
    }
    MembersPartWayDone(names[..], entries[..], i, members, depth, fmt, len);
  }

  // ----- parsing -----

  method SkipBlanks(t: string) returns (ptr: string)
    ensures ptr == Skip(t)
  {
    ptr := t;
    while ptr != "" && ptr[0] as int <= 32
      invariant Skip(ptr) == Skip(t)
      decreases |ptr|
    {
      ptr := ptr[1..];
    }
  }

  /** The string up to here is `done`; the rest of the text goes on with it. */
  ghost predicate SameString(t: string, done: nat, ptr: string) {
    var r, r0 := ParseChars(ptr), ParseChars(t);
    if r.Got? then r0.Got? && r0.rest == r.rest && |r0.value| == done + |r.value| && r0.value[done..] == r.value
    else r0 == r
  }

  lemma SameStringOn(t: string, done: nat, ptr: string)
    requires SameString(t, done, ptr) && ptr != "" && ptr[0] != '\"' && ptr[0] as int > 31
    ensures ptr[0] != '\\' ==> SameString(t, done + 1, ptr[1..])
    ensures ptr[0] != '\\' ==> ParseChars(t).Got? ==>
      done < |ParseChars(t).value| && ParseChars(t).value[done] == ptr[0]
    ensures ptr[0] == '\\' && |ptr| > 1 && ptr[1] != 'u' ==> SameString(t, done + 1, ptr[2..])
    ensures ptr[0] == '\\' && |ptr| > 1 && ptr[1] != 'u' && ParseChars(t).Got? ==>
      done < |ParseChars(t).value| && ParseChars(t).value[done] == Unescaped(ptr[1])
  {
    var r0 := ParseChars(t);
    if r0.Got? {
      var r := ParseChars(ptr);
      assert r0.value[done..] == r.value;
      assert r.value[0] == r0.value[done];
      assert r.value[1..] == r0.value[done + 1..];
    }
  }

  /** A string of `len` characters ends here. */
  lemma SameStringEnds(t: string, done: nat, ptr: string)
    requires SameString(t, done, ptr) && (ptr == "" || ptr[0] == '\"' || ptr[0] as int <= 31)
    ensures ParseChars(t).Got? && |ParseChars(t).value| == done
    ensures ParseChars(t).rest == if ptr != "" && ptr[0] == '\"' then ptr[1..] else ptr
  {
  }

  predicate InString(ptr: string) {
    ptr != "" && ptr[0] != '\"' && ptr[0] as int > 31
  }

  /** Two passes: the first counts the characters, the second writes them. */
  method ReadString(t: string) returns (r: Read<string>)
    ensures r == ParseString(t)
  {
    if t == "" || t[0] != '\"' {
      return Failed;
    }
    var len, ptr := 0, t[1..];
    while InString(ptr)
      invariant SameString(t[1..], len, ptr)
      decreases |ptr|
    {
      SameStringOn(t[1..], len, ptr);
      len := len + 1;
      if ptr[0] != '\\' {
        ptr := ptr[1..];
      } else if |ptr| == 1 {
        return Overrun;
      } else if ptr[1] == 'u' {
        return Beyond;
      } else {
        ptr := ptr[2..];
      }
    }
    SameStringEnds(t[1..], len, ptr);
    r := CopyString(t[1..], len);
  }

  method CopyString(t: string, len: nat) returns (r: Read<string>)
    requires ParseChars(t).Got? && len == |ParseChars(t).value|
    ensures r == ParseChars(t)
  {
    var out := new char[len + 1];
    var k, ptr := 0, t;
    while InString(ptr)
      invariant SameString(t, k, ptr) && k <= len && out[..k] == ParseChars(t).value[..k]
      decreases |ptr|
    {
      SameStringOn(t, k, ptr);
      SameStringGoes(t, k, ptr);
      if ptr[0] != '\\' {
        out[k] := ptr[0];
        ptr := ptr[1..];
      } else {
        out[k] := Unescaped(ptr[1]);
        ptr := ptr[2..];
      }
      k := k + 1;
    }
    SameStringEnds(t, k, ptr);
    assert out[..k] == ParseChars(t).value;
    out[k] := NUL;
    if ptr != "" && ptr[0] == '\"' {
      ptr := ptr[1..];
    }
    r := Got(out[..k], ptr);
  }

  lemma SameStringGoes(t: string, done: nat, ptr: string)
    requires SameString(t, done, ptr) && InString(ptr) && ParseChars(t).Got?
    ensures ptr[0] == '\\' ==> |ptr| > 1 && ptr[1] != 'u'
  {
    assert ParseChars(ptr).Got?;
  }

  method ReadNumber(t: string) returns (r: Read<Json>)
    requires t != "" && (t[0] == '-' || IsDigit(t[0]))
    ensures r == ParseNumber(t)
  {
    var num, sign := t, 1;
    var n: nat := 0;
    if num[0] == '-' {
      num, sign := num[1..], -1;
    }
    if num != "" && num[0] == '0' {
      num := num[1..];
    }
    if num != "" && '1' <= num[0] <= '9' {
      n, num := DigitValue(num[0]), num[1..];
      while num != "" && IsDigit(num[0])
        invariant ReadDigits(num, n) == ReadWhole(After(After(t, '-'), '0'))
        decreases |num|
      {
        n, num := 10 * n + DigitValue(num[0]), num[1..];
      }
    }
    if GoesOn(num) || !In32Bits(sign * n) {
      r := Beyond;
    } else {
      r := Got(Number(sign * n), num);
    }
  }

  method ReadValue(t: string) returns (r: Read<Json>)
    ensures r == ParseValue(t)
    decreases |t|, 1
  {
    if Starts(t, "null") {
      r := Got(Null, t[4..]);
    } else if Starts(t, "false") {
      r := Got(False, t[5..]);
    } else if Starts(t, "true") {
      r := Got(True, t[4..]);
    } else if t == "" {
      r := Failed;
    } else if t[0] == '\"' {
      var s := ReadString(t);
      r := if s.Got? then Got(String(s.value), s.rest) else Recast(s);
    } else if t[0] == '-' || IsDigit(t[0]) {
      r := ReadNumber(t);
    } else if t[0] == '[' {
      r := ReadArray(t);
    } else if t[0] == '{' {
      r := ReadObject(t);
    } else {
      r := Failed;
    }
  }

  /** A value and the blanks around it. */
  method ReadPadded(t: string) returns (r: Read<Json>)
    ensures r == ParsePadded(t)
    decreases |t|, 2
  {
    var u := SkipBlanks(t);
    if u == "" {
      return Overrun;
    }
    r := ReadValue(u);
    if r.Got? {
      var w := SkipBlanks(r.rest);
      r := if w == "" then Overrun else Got(r.value, w);
    }
  }

  /** What may follow an item: another one, or the end of the array. */
  ghost function AfterItem(w: string): Read<Items>
    requires w != ""
  {
    if w[0] == ',' then ParseItems(w[1..])
    else if w[0] == ']' then Got(NoItem, w[1..])
    else Failed
  }

  /** A chain of items hung on to one after another. */
  function Chain(values: seq<Json>, last: Items): Items {
    if values == [] then last else Item(values[0], Chain(values[1..], last))
  }

  lemma {:induction false} ChainMore(values: seq<Json>, v: Json, last: Items)
    ensures Chain(values + [v], last) == Chain(values, Item(v, last))
  {
    if values == [] {
      assert [] + [v] == [v] && [v][1..] == [];
    } else {
      ChainMore(values[1..], v, last);
      assert (values + [v])[1..] == values[1..] + [v] && (values + [v])[0] == values[0];
    }
  }

  ghost function Chained(values: seq<Json>, r: Read<Items>): Read<Items> {
    if r.Got? then Got(Chain(values, r.value), r.rest) else r
  }

  lemma ChainedMore(values: seq<Json>, v: Json, r: Read<Items>)
    ensures Chained(values + [v], r) == Chained(values, if r.Got? then Got(Item(v, r.value), r.rest) else r)
  {
    if r.Got? {
      ChainMore(values, v, r.value);
    }
  }

  method ReadArray(t: string) returns (r: Read<Json>)
    requires t != "" && t[0] == '['
    ensures r == ParseArray(t[1..])
    decreases |t|, 0
  {
    var u := SkipBlanks(t[1..]);
    if u == "" {
      return Overrun;
    }
    if u[0] == ']' {
      return Got(Array(NoItem), u[1..]);
    }
    var items := ReadItems(u);
    r := if items.Got? then Got(Array(items.value), items.rest) else Recast(items);
  }

  method ReadItems(t: string) returns (r: Read<Items>)
    ensures r == ParseItems(t)
    decreases |t|, 3
  {
    var first := ReadPadded(t);
    if !first.Got? {
      return Recast(first);
    }
    var values, w := [first.value], first.rest;
    assert [] + values == values;
    ChainedMore([], first.value, AfterItem(w));
    while w[0] == ','
      invariant 0 < |w| < |t| && Chained(values, AfterItem(w)) == ParseItems(t)
      decreases |w|
    {
      var next := ReadPadded(w[1..]);
      if !next.Got? {
        return Recast(next);
      }
      ChainedMore(values, next.value, AfterItem(next.rest));
      values, w := values + [next.value], next.rest;
    }
    r := if w[0] == ']' then Got(Chain(values, NoItem), w[1..]) else Failed;
  }

  ghost function AfterMember(w: string): Read<Members>
    requires w != ""
  {
    if w[0] == ',' then ParseMembers(w[1..])
    else if w[0] == '}' then Got(NoMember, w[1..])
    else Failed
  }

  function MemberChain(names: seq<string>, values: seq<Json>, last: Members): Members
    requires |names| == |values|
  {
    if values == [] then last else Member(names[0], values[0], MemberChain(names[1..], values[1..], last))
  }

  lemma {:induction false} MemberChainMore(names: seq<string>, values: seq<Json>, n: string, v: Json, last: Members)
    requires |names| == |values|
    ensures MemberChain(names + [n], values + [v], last) == MemberChain(names, values, Member(n, v, last))
    decreases names
  {
    if values == [] {
      assert names + [n] == [n] && values + [v] == [v] && [v][1..] == [] && [n][1..] == [];
    } else {
      MemberChainMore(names[1..], values[1..], n, v, last);
      assert (values + [v])[1..] == values[1..] + [v] && (values + [v])[0] == values[0];
      assert (names + [n])[1..] == names[1..] + [n] && (names + [n])[0] == names[0];
    }
  }

  ghost function MembersChained(names: seq<string>, values: seq<Json>, r: Read<Members>): Read<Members>
    requires |names| == |values|
  {
    if r.Got? then Got(MemberChain(names, values, r.value), r.rest) else r
  }

  lemma MembersChainedMore(names: seq<string>, values: seq<Json>, n: string, v: Json, r: Read<Members>)
    requires |names| == |values|
    ensures MembersChained(names + [n], values + [v], r)
      == MembersChained(names, values, if r.Got? then Got(Member(n, v, r.value), r.rest) else r)
  {
    if r.Got? {
      MemberChainMore(names, values, n, v, r.value);
    }
  }

  lemma MembersChainedOne(n: string, v: Json, r: Read<Members>)
    ensures MembersChained([n], [v], r) == if r.Got? then Got(Member(n, v, r.value), r.rest) else r
  {
    assert [] + [n] == [n] && [] + [v] == [v];
    MembersChainedMore([], [], n, v, r);
  }

  method ReadObject(t: string) returns (r: Read<Json>)
    requires t != "" && t[0] == '{'
    ensures r == ParseObject(t[1..])
    decreases |t|, 0
  {
    var u := SkipBlanks(t[1..]);
    if u == "" {
      return Overrun;
    }
    if u[0] == '}' {
      return Got(Object(NoMember), u[1..]);
    }
    var members := ReadMembers(u);
    r := if members.Got? then Got(Object(members.value), members.rest) else Recast(members);
  }

  method ReadName(t: string) returns (r: Read<string>)
    ensures r == ParseName(t)
  {
    var u := SkipBlanks(t);
    if u == "" {
      return Overrun;
    }
    r := ReadString(u);
    if r.Got? {
      var w := SkipBlanks(r.rest);
      if w == "" {
        r := Overrun;
      } else if w[0] != ':' {
        r := Failed;
      } else {
        r := Got(r.value, w[1..]);
      }
    }
  }

  /** A name, a colon and a value. */
  method ReadMember(t: string) returns (name: Read<string>, value: Read<Json>)
    ensures name == ParseName(t)
    ensures value == if name.Got? then ParsePadded(name.rest) else Recast(name)
    decreases |t|, 3
  {
    name := ReadName(t);
    if !name.Got? {
      return name, Recast(name);
    }
    value := ReadPadded(name.rest);
  }

  method ReadMembers(t: string) returns (r: Read<Members>)
    ensures r == ParseMembers(t)
    decreases |t|, 4
  {
    var name, first := ReadMember(t);
    if !first.Got? {
      return Recast(first);
    }
    var names, values, w := [name.value], [first.value], first.rest;
    ghost var whole := ParseMembers(t);
    MembersChainedOne(name.value, first.value, AfterMember(w));
    while w[0] == ','
      invariant 0 < |w| < |t| && |names| == |values|
      invariant MembersChained(names, values, AfterMember(w)) == whole
      decreases |w|
    {
      var other, next := ReadMember(w[1..]);
      if !next.Got? {
        return Recast(next);
      }
      MembersChainedMore(names, values, other.value, next.value, AfterMember(next.rest));
      names, values, w := names + [other.value], values + [next.value], next.rest;
    }
    r := if w[0] == '}' then Got(MemberChain(names, values, NoMember), w[1..]) else Failed;
  }

  method ParseText(t: string) returns (r: Read<Json>)
    ensures r == Parse(t)
  {
    var u := SkipBlanks(t);
    if u == "" {
      return Overrun;
    }
    r := ReadValue(u);
  }

  /** What is printed parses back to the value without its dropped characters. */
  method PrintAndParse(v: Json, fmt: bool) returns (back: Read<Json>)
    requires WellFormed(v)
    ensures back == Got(Strip(v), "") && (back == Got(v, "") <==> Clean(v))
  {
    var text := PrintValue(v, 0, fmt);
    back := ParseText(text);
    RoundTrip(v, 0, fmt);
  }
}
