/** JSON texts: what the printer writes and what the parser makes of a text. */
module JsonText {
  import opened Rows

  /** A value. Children hang together as a chain, as in the tree of items. */
  datatype Json =
    | Null
    | False
    | True
    | Number(n: int)
    | String(s: string)
    | Array(items: Items)
    | Object(members: Members)

  datatype Items = NoItem | Item(value: Json, more: Items)

  datatype Members = NoMember | Member(name: string, value: Json, more: Members)

  // ----- printing -----

  const NUL: char := 0 as char
  const BACKSPACE: char := 8 as char
  const FORMFEED: char := 12 as char

  /** The letter that stands for a character after a backslash, if it has one. */
  function Letter(c: char): string {
    if c == '\\' then "\\"
    else if c == '\"' then "\""
    else if c == BACKSPACE then "b"
    else if c == FORMFEED then "f"
    else if c == '\n' then "n"
    else if c == '\r' then "r"
    else if c == '\t' then "t"
    else ""
  }

  predicate Plain(c: char) {
    c as int > 31 && c != '\"' && c != '\\'
  }

  /** A control character without a letter of its own is left out. */
  function Escaped(c: char): string {
    if Plain(c) then [c] else if Letter(c) == "" then "" else "\\" + Letter(c)
  }

  function EscapedAll(s: string): string {
    if s == "" then "" else Escaped(s[0]) + EscapedAll(s[1..])
  }

  function Quoted(s: string): string {
    "\"" + EscapedAll(s) + "\""
  }

  function Digit(d: nat): char
    requires d < 10
  {
    '0' + d as char
  }

  function Digits(n: nat): (s: string)
    ensures |s| > 0
  {
    if n < 10 then [Digit(n)] else Digits(n / 10) + [Digit(n % 10)]
  }

  function Decimal(n: int): string {
    if n < 0 then "-" + Digits(-n) else Digits(n)
  }

  function Tabs(n: nat): (s: string)
    ensures |s| == n
  {
    if n == 0 then "" else Tabs(n - 1) + "\t"
  }

  /** What is written in the roomy layout only. */
  function Roomy(fmt: bool, s: string): string {
    if fmt then s else ""
  }

  function Print(v: Json, depth: nat, fmt: bool): string {
    match v
    case Null => "null"
    case False => "false"
    case True => "true"
    case Number(n) => Decimal(n)
    case String(s) => Quoted(s)
    case Array(items) => "[" + PrintItems(items, depth + 1, fmt) + "]"
    case Object(members) =>
      "{" + Roomy(fmt, "\n") + PrintMembers(members, depth + 1, fmt) + Roomy(fmt, Tabs(depth)) + "}"
  }

  function PrintItems(items: Items, depth: nat, fmt: bool): string {
    match items
    case NoItem => ""
    case Item(v, more) =>
      Print(v, depth, fmt) + (if more.NoItem? then "" else "," + Roomy(fmt, " ")) + PrintItems(more, depth, fmt)
  }

  function PrintMembers(members: Members, depth: nat, fmt: bool): string {
    match members
    case NoMember => ""
    case Member(name, v, more) =>
      Roomy(fmt, Tabs(depth)) + Quoted(name) + ":" + Roomy(fmt, "\t") + Print(v, depth, fmt)
      + (if more.NoMember? then "" else ",") + Roomy(fmt, "\n") + PrintMembers(more, depth, fmt)
  }

  // ----- parsing -----

  /** What comes of reading a text: a value and the text left; a failure; a read
      past the terminator; or a text with a fraction, an exponent, a number that
      does not fit 32 bits, or a \u escape, which the model does not follow. */
  datatype Read<T> = Got(value: T, rest: string) | Failed | Overrun | Beyond

  function Recast<T, U>(r: Read<T>): Read<U>
    requires !r.Got?
  {
    match r
    case Failed => Failed
    case Overrun => Overrun
    case Beyond => Beyond
  }

  /** Steps over blanks and control characters, the terminator included: nothing
      is left when only such characters remain. */
  function Skip(t: string): (u: string)
    ensures |u| <= |t|
  {
    if t != "" && t[0] as int <= 32 then Skip(t[1..]) else t
  }

  predicate Starts(t: string, word: string) {
    |t| >= |word| && t[..|word|] == word
  }

  function Unescaped(c: char): char {
    match c
    case 'b' => BACKSPACE
    case 'f' => FORMFEED
    case 'n' => '\n'
    case 'r' => '\r'
    case 't' => '\t'
    case _ => c
  }

  /** The characters up to the closing quote, or up to a control character. */
  function ParseChars(t: string): (r: Read<string>)
    ensures r.Got? ==> |r.rest| <= |t|
    decreases |t|
  {
    if t == "" || t[0] as int <= 31 then Got("", t)
    else if t[0] == '\"' then Got("", t[1..])
    else if t[0] != '\\' then Ahead([t[0]], ParseChars(t[1..]))
    else if |t| == 1 then Overrun
    else if t[1] == 'u' then Beyond
    else Ahead([Unescaped(t[1])], ParseChars(t[2..]))
  }

  function Ahead(s: string, r: Read<string>): Read<string> {
    if r.Got? then Got(s + r.value, r.rest) else r
  }

  function ParseString(t: string): (r: Read<string>)
    ensures r.Got? ==> |r.rest| < |t|
  {
    if t == "" || t[0] != '\"' then Failed else ParseChars(t[1..])
  }

  predicate IsDigit(c: char) {
    '0' <= c <= '9'
  }

  function DigitValue(c: char): nat
    requires IsDigit(c)
  {
    c as int - '0' as int
  }

  /** The number that digits spell, after `n`, and the text after them. */
  function ReadDigits(t: string, n: nat): (r: (nat, string))
    ensures |r.1| <= |t|
  {
    if t != "" && IsDigit(t[0]) then ReadDigits(t[1..], 10 * n + DigitValue(t[0])) else (n, t)
  }

  /** Digits not led by a zero. */
  function ReadWhole(t: string): (r: (nat, string))
    ensures |r.1| <= |t|
  {
    if t != "" && t[0] != '0' then ReadDigits(t, 0) else (0, t)
  }

  function After(t: string, c: char): string {
    if t != "" && t[0] == c then t[1..] else t
  }

  predicate In32Bits(n: int) {
    -0x8000_0000 <= n < 0x8000_0000
  }

  predicate GoesOn(t: string) {
    t != "" && (t[0] == '.' || t[0] == 'e' || t[0] == 'E')
  }

  function ParseNumber(t: string): (r: Read<Json>)
    requires t != "" && (t[0] == '-' || IsDigit(t[0]))
    ensures r.Got? ==> |r.rest| < |t|
  {
    var unsigned := After(t, '-');
    var whole := ReadWhole(After(unsigned, '0'));
    var n: int := if t[0] == '-' then 0 - whole.0 else whole.0;
    if GoesOn(whole.1) || !In32Bits(n) then Beyond
    else
      assert t[0] != '-' && t[0] != '0' ==> whole == ReadDigits(t[1..], DigitValue(t[0]));
      Got(Number(n), whole.1)
  }

  function ParseValue(t: string): (r: Read<Json>)
    ensures r.Got? ==> |r.rest| < |t|
    decreases |t|, 1
  {
    if Starts(t, "null") then Got(Null, t[4..])
    else if Starts(t, "false") then Got(False, t[5..])
    else if Starts(t, "true") then Got(True, t[4..])
    else if t == "" then Failed
    else if t[0] == '\"' then
      var r := ParseString(t);
      if r.Got? then Got(String(r.value), r.rest) else Recast(r)
    else if t[0] == '-' || IsDigit(t[0]) then ParseNumber(t)
    else if t[0] == '[' then ParseArray(t[1..])
    else if t[0] == '{' then ParseObject(t[1..])
    else Failed
  }

  /** An array after its opening bracket. */
  function ParseArray(t: string): (r: Read<Json>)
    ensures r.Got? ==> |r.rest| < |t|
    decreases |t|, 4
  {
    var u := Skip(t);
    if u == "" then Overrun
    else if u[0] == ']' then Got(Array(NoItem), u[1..])
    else
      var r := ParseItems(u);
      if r.Got? then Got(Array(r.value), r.rest) else Recast(r)
  }

  /** An object after its opening brace. */
  function ParseObject(t: string): (r: Read<Json>)
    ensures r.Got? ==> |r.rest| < |t|
    decreases |t|, 4
  {
    var u := Skip(t);
    if u == "" then Overrun
    else if u[0] == '}' then Got(Object(NoMember), u[1..])
    else
      var r := ParseMembers(u);
      if r.Got? then Got(Object(r.value), r.rest) else Recast(r)
  }

  /** A value and the blanks around it; something has to follow. */
  function ParsePadded(t: string): (r: Read<Json>)
    ensures r.Got? ==> 0 < |r.rest| < |t|
    decreases |t|, 2
  {
    var u := Skip(t);
    if u == "" then Overrun
    else
      var r := ParseValue(u);
      if !r.Got? then r
      else if Skip(r.rest) == "" then Overrun
      else Got(r.value, Skip(r.rest))
  }

  function ParseItems(t: string): (r: Read<Items>)
    ensures r.Got? ==> |r.rest| < |t|
    decreases |t|, 3
  {
    var first := ParsePadded(t);
    if !first.Got? then Recast(first)
    else if first.rest[0] == ',' then
      var more := ParseItems(first.rest[1..]);
      if more.Got? then Got(Item(first.value, more.value), more.rest) else more
    else if first.rest[0] == ']' then Got(Item(first.value, NoItem), first.rest[1..])
    else Failed
  }

  /** A name and the colon after it. */
  function ParseName(t: string): (r: Read<string>)
    ensures r.Got? ==> |r.rest| < |t|
  {
    var u := Skip(t);
    if u == "" then Overrun
    else
      var r := ParseString(u);
      if !r.Got? then r
      else
        var w := Skip(r.rest);
        if w == "" then Overrun
        else if w[0] != ':' then Failed
        else Got(r.value, w[1..])
  }

  function ParseMembers(t: string): (r: Read<Members>)
    ensures r.Got? ==> |r.rest| < |t|
    decreases |t|, 3
  {
    var name := ParseName(t);
    if !name.Got? then Recast(name)
    else
      var first := ParsePadded(name.rest);
      if !first.Got? then Recast(first)
      else if first.rest[0] == ',' then
        var more := ParseMembers(first.rest[1..]);
        if more.Got? then Got(Member(name.value, first.value, more.value), more.rest) else more
      else if first.rest[0] == '}' then Got(Member(name.value, first.value, NoMember), first.rest[1..])
      else Failed
  }

  /** The text of a document. What follows the value is not looked at. */
  function Parse(t: string): Read<Json> {
    var u := Skip(t);
    if u == "" then Overrun else ParseValue(u)
  }

  // ----- what survives printing -----

  /** As a string of the program can be: no terminator inside, numbers of 32 bits. */
  predicate WellFormed(v: Json) {
    match v
    case Number(n) => In32Bits(n)
    case String(s) => NUL !in s
    case Array(items) => WellFormedItems(items)
    case Object(members) => WellFormedMembers(members)
    case _ => true
  }

  predicate WellFormedItems(items: Items) {
    items.Item? ==> WellFormed(items.value) && WellFormedItems(items.more)
  }

  predicate WellFormedMembers(members: Members) {
    members.Member? ==> NUL !in members.name && WellFormed(members.value) && WellFormedMembers(members.more)
  }

  predicate Dropped(c: char) {
    Escaped(c) == ""
  }

  function StripChars(s: string): string {
    if s == "" then "" else (if Dropped(s[0]) then "" else [s[0]]) + StripChars(s[1..])
  }

  function Strip(v: Json): Json {
    match v
    case String(s) => String(StripChars(s))
    case Array(items) => Array(StripItems(items))
    case Object(members) => Object(StripMembers(members))
    case _ => v
  }

  function StripItems(items: Items): Items {
    match items
    case NoItem => NoItem
    case Item(v, more) => Item(Strip(v), StripItems(more))
  }

  function StripMembers(members: Members): Members {
    match members
    case NoMember => NoMember
    case Member(name, v, more) => Member(StripChars(name), Strip(v), StripMembers(more))
  }

  predicate CleanChars(s: string) {
    forall i :: 0 <= i < |s| ==> !Dropped(s[i])
  }

  predicate Clean(v: Json) {
    match v
    case String(s) => CleanChars(s)
    case Array(items) => CleanItems(items)
    case Object(members) => CleanMembers(members)
    case _ => true
  }

  predicate CleanItems(items: Items) {
    items.Item? ==> Clean(items.value) && CleanItems(items.more)
  }

  predicate CleanMembers(members: Members) {
    members.Member? ==> CleanChars(members.name) && Clean(members.value) && CleanMembers(members.more)
  }

  predicate AllDigits(s: string) {
    forall i :: 0 <= i < |s| ==> IsDigit(s[i])
  }

  lemma {:induction false} DigitsAreDigits(n: nat)
    ensures AllDigits(Digits(n)) && (n > 0 ==> Digits(n)[0] != '0')
  {
    if n >= 10 {
      DigitsAreDigits(n / 10);
    }
  }

  // ----- what the round trip loses -----

  lemma {:induction false} StripKeepsClean(s: string)
    ensures StripChars(s) == s <==> CleanChars(s)
    ensures |StripChars(s)| <= |s|
  {
    if s != "" {
      StripKeepsClean(s[1..]);
      if Dropped(s[0]) {
        assert !CleanChars(s);
      } else {
        assert StripChars(s)[1..] == StripChars(s[1..]);
        assert forall i :: 0 < i < |s| ==> s[i] == s[1..][i - 1];
        assert CleanChars(s) ==> forall i :: 0 <= i < |s| - 1 ==> s[1..][i] == s[i + 1];
      }
    }
  }

  lemma {:induction false} StripExact(v: Json)
    ensures Strip(v) == v <==> Clean(v)
  {
    match v
    case String(s) => StripKeepsClean(s);
    case Array(items) => StripItemsExact(items);
    case Object(members) => StripMembersExact(members);
    case _ =>
  }

  lemma {:induction false} StripItemsExact(items: Items)
    ensures StripItems(items) == items <==> CleanItems(items)
  {
    if items.Item? {
      StripExact(items.value);
      StripItemsExact(items.more);
    }
  }

  lemma {:induction false} StripMembersExact(members: Members)
    ensures StripMembers(members) == members <==> CleanMembers(members)
  {
    if members.Member? {
      StripKeepsClean(members.name);
      StripExact(members.value);
      StripMembersExact(members.more);
    }
  }

  lemma {:induction false} StripPrintsSameChars(s: string)
    ensures EscapedAll(StripChars(s)) == EscapedAll(s)
  {
    if s != "" {
      StripPrintsSameChars(s[1..]);
      if Dropped(s[0]) {
        assert StripChars(s) == "" + StripChars(s[1..]) == StripChars(s[1..]);
      } else {
        assert StripChars(s)[1..] == StripChars(s[1..]);
      }
    }
  }

  /** Printing again what was parsed gives the same text. */
  lemma {:induction false} StripPrintsSame(v: Json, depth: nat, fmt: bool)
    ensures Print(Strip(v), depth, fmt) == Print(v, depth, fmt)
  {
    match v
    case String(s) => StripPrintsSameChars(s);
    case Array(items) => StripPrintsSameItems(items, depth + 1, fmt);
    case Object(members) => StripPrintsSameMembers(members, depth + 1, fmt);
    case _ =>
  }

  lemma {:induction false} StripPrintsSameItems(items: Items, depth: nat, fmt: bool)
    ensures PrintItems(StripItems(items), depth, fmt) == PrintItems(items, depth, fmt)
  {
    if items.Item? {
      StripPrintsSame(items.value, depth, fmt);
      StripPrintsSameItems(items.more, depth, fmt);
    }
  }

  lemma {:induction false} StripPrintsSameMembers(members: Members, depth: nat, fmt: bool)
    ensures PrintMembers(StripMembers(members), depth, fmt) == PrintMembers(members, depth, fmt)
  {
    if members.Member? {
      StripPrintsSameChars(members.name);
      StripPrintsSame(members.value, depth, fmt);
      StripPrintsSameMembers(members.more, depth, fmt);
    }
  }
}
