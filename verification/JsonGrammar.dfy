/** The grammar of RFC 4627 with what its texts mean, which is said in terms of neither
    the printer nor the parser, and what the parser takes: all of it and some more. */
module JsonGrammar {
  import opened Rows
  import opened JsonText

  // ----- texts by the grammar -----

  /** A character of a string (section 2.5): itself, or a backslash and a letter. */
  datatype Unit = Itself(c: char) | Escape(letter: char)

  /** A value with the blanks that its text has: those behind an opening bracket or
      brace, and those around each value, name and colon. A string that is not
      closed lacks its second quote, which is not by the grammar. */
  datatype Syntax =
    | NullWord
    | FalseWord
    | TrueWord
    | Numeral(minus: bool, digits: string)
    | Text(units: seq<Unit>, closed: bool)
    | List(blank: string, values: Values)
    | Record(blank: string, pairs: Pairs)

  datatype Values = NoValue | Value(ahead: string, value: Syntax, behind: string, more: Values)

  datatype Pairs =
    | NoPair
    | Pair(ahead: string, name: seq<Unit>, closed: bool, toColon: string, fromColon: string, value: Syntax,
           behind: string, more: Pairs)

  /** The code that each escape letter stands for. */
  const CODES: map<char, int> :=
    map['\"' := 0x22, '\\' := 0x5C, '/' := 0x2F, 'b' := 0x8, 'f' := 0xC, 'n' := 0xA, 'r' := 0xD, 't' := 0x9]

  predicate UnitWritten(u: Unit) {
    match u
    case Itself(c) => c as int >= 0x20 && c as int != 0x22 && c as int != 0x5C
    case Escape(letter) => letter in CODES
  }

  predicate UnitsWritten(units: seq<Unit>) {
    forall i :: 0 <= i < |units| ==> UnitWritten(units[i])
  }

  predicate Blank(s: string) {
    forall i :: 0 <= i < |s| ==> s[i] as int in {0x20, 0x9, 0xA, 0xD}
  }

  /** No digits ahead of which a zero could be left out (section 2.4). */
  predicate DigitsWritten(d: string) {
    d != "" && (|d| > 1 ==> d[0] != '0') && forall i :: 0 <= i < |d| ==> d[i] in "0123456789"
  }

  predicate Fits32(n: int) {
    -0x8000_0000 <= n <= 0x7fff_ffff
  }

  /** What the model follows: all of the grammar but fractions, exponents, numbers
      beyond 32 bits and escapes by code. */
  predicate Written(t: Syntax) {
    match t
    case Numeral(minus, digits) => DigitsWritten(digits) && Fits32(Signed(minus, NumberOf(digits)))
    case Text(units, closed) => UnitsWritten(units) && closed
    case List(blank, values) => Blank(blank) && ValuesWritten(values)
    case Record(blank, pairs) => Blank(blank) && PairsWritten(pairs)
    case _ => true
  }

  predicate ValuesWritten(vs: Values) {
    vs.Value? ==> Blank(vs.ahead) && Written(vs.value) && Blank(vs.behind) && ValuesWritten(vs.more)
  }

  predicate PairsWritten(ps: Pairs) {
    ps.Pair? ==>
      && Blank(ps.ahead) && UnitsWritten(ps.name) && ps.closed && Blank(ps.toColon) && Blank(ps.fromColon)
      && Written(ps.value) && Blank(ps.behind) && PairsWritten(ps.more)
  }

  /** The text of a value with `tail` behind it. */
  function Spelled(t: Syntax, tail: string): string
    decreases t, 0
  {
    match t
    case NullWord => "null" + tail
    case FalseWord => "false" + tail
    case TrueWord => "true" + tail
    case Numeral(minus, digits) => if minus then "-" + (digits + tail) else digits + tail
    case Text(units, closed) => "\"" + SpelledUnits(units, Closing(closed, tail))
    case List(blank, values) => "[" + (blank + SpelledValues(values, "]" + tail))
    case Record(blank, pairs) => "{" + (blank + SpelledPairs(pairs, "}" + tail))
  }

  function Closing(closed: bool, tail: string): string {
    if closed then "\"" + tail else tail
  }

  function SpelledUnits(units: seq<Unit>, tail: string): string {
    if units == [] then tail
    else
      var rest := SpelledUnits(units[1..], tail);
      match units[0]
      case Itself(c) => [c] + rest
      case Escape(letter) => ['\\', letter] + rest
  }

  function SpelledValues(vs: Values, tail: string): string
    decreases vs, 0
  {
    match vs
    case NoValue => tail
    case Value(ahead, v, behind, more) => ahead + Spelled(v, behind + MoreValues(more, tail))
  }

  function MoreValues(more: Values, tail: string): string
    decreases more, 1
  {
    if more.NoValue? then tail else "," + SpelledValues(more, tail)
  }

  function SpelledPairs(ps: Pairs, tail: string): string
    decreases ps, 0
  {
    match ps
    case NoPair => tail
    case Pair(ahead, name, closed, toColon, fromColon, v, behind, more) =>
      ahead + ("\"" + SpelledUnits(name, Closing(closed,
        toColon + (":" + (fromColon + Spelled(v, behind + MorePairs(more, tail)))))))
  }

  function MorePairs(more: Pairs, tail: string): string
    decreases more, 1
  {
    if more.NoPair? then tail else "," + SpelledPairs(more, tail)
  }

  // ----- what they mean -----

  function DigitOf(c: char): nat {
    match c
    case '1' => 1
    case '2' => 2
    case '3' => 3
    case '4' => 4
    case '5' => 5
    case '6' => 6
    case '7' => 7
    case '8' => 8
    case '9' => 9
    case _ => 0
  }

  /** Decimal digits, the last one the lowest. */
  function NumberOf(d: string): nat {
    if d == "" then 0 else 10 * NumberOf(d[..|d| - 1]) + DigitOf(d[|d| - 1])
  }

  function Signed(minus: bool, n: nat): int {
    if minus then 0 - n else n
  }

  /** A letter without a code, which the grammar does not have, stands for itself. */
  function CharOf(u: Unit): char {
    match u
    case Itself(c) => c
    case Escape(letter) => if letter in CODES then CODES[letter] as char else letter
  }

  function StringOf(units: seq<Unit>): string {
    if units == [] then "" else [CharOf(units[0])] + StringOf(units[1..])
  }

  function Meaning(t: Syntax): Json {
    match t
    case NullWord => Null
    case FalseWord => False
    case TrueWord => True
    case Numeral(minus, digits) => Number(Signed(minus, NumberOf(digits)))
    case Text(units, _) => String(StringOf(units))
    case List(_, values) => Array(ItemsOf(values))
    case Record(_, pairs) => Object(MembersOf(pairs))
  }

  function ItemsOf(vs: Values): Items {
    if vs.NoValue? then NoItem else Item(Meaning(vs.value), ItemsOf(vs.more))
  }

  function MembersOf(ps: Pairs): Members {
    if ps.NoPair? then NoMember else Member(StringOf(ps.name), Meaning(ps.value), MembersOf(ps.more))
  }

  // ----- what the parser takes besides -----

  predicate UnitReadable(u: Unit) {
    match u
    case Itself(c) => c as int >= 0x20 && c as int != 0x22 && c as int != 0x5C
    case Escape(letter) => letter != 'u'
  }

  predicate UnitsReadable(units: seq<Unit>) {
    forall i :: 0 <= i < |units| ==> UnitReadable(units[i])
  }

  /** Control characters are blanks, too. */
  predicate Blankish(s: string) {
    forall i :: 0 <= i < |s| ==> s[i] as int <= 0x20
  }

  /** The end of the text or a control character closes a string as well. */
  predicate Closes(closed: bool, tail: string) {
    closed || tail == "" || tail[0] as int < 0x20
  }

  predicate Begins(tail: string, which: string) {
    tail != "" && tail[0] in which
  }

  /** One zero may be ahead of other digits, and a minus sign may stand alone; all
      the digits are taken that there are, but behind a zero no other. */
  predicate DigitsReadable(minus: bool, d: string, tail: string) {
    && (forall i :: 0 <= i < |d| ==> d[i] in "0123456789")
    && (d == "" ==> minus) && (|d| > 1 && d[0] == '0' ==> d[1] != '0')
    && !Begins(tail, if d == "0" then "123456789" else "0123456789") && !Begins(tail, ".eE")
  }

  /** What the parser takes with `tail` behind it. */
  predicate Readable(t: Syntax, tail: string) {
    match t
    case Numeral(minus, digits) =>
      DigitsReadable(minus, digits, tail) && Fits32(Signed(minus, NumberOf(digits)))
    case Text(units, closed) => UnitsReadable(units) && Closes(closed, tail)
    case List(blank, values) => Blankish(blank) && ValuesReadable(values, "]" + tail)
    case Record(blank, pairs) => Blankish(blank) && PairsReadable(pairs, "}" + tail)
    case _ => true
  }

  predicate ValuesReadable(vs: Values, tail: string) {
    vs.Value? ==>
      && Blankish(vs.ahead) && Readable(vs.value, vs.behind + MoreValues(vs.more, tail)) && Blankish(vs.behind)
      && ValuesReadable(vs.more, tail)
  }

  predicate PairsReadable(ps: Pairs, tail: string) {
    ps.Pair? ==>
      var next := ps.behind + MorePairs(ps.more, tail);
      && Blankish(ps.ahead) && NameReadable(ps.name, ps.closed, ps.toColon, ps.fromColon + Spelled(ps.value, next))
      && Blankish(ps.fromColon) && Readable(ps.value, next) && Blankish(ps.behind) && PairsReadable(ps.more, tail)
  }

  predicate NameReadable(name: seq<Unit>, closed: bool, toColon: string, w: string) {
    UnitsReadable(name) && Closes(closed, toColon + (":" + w)) && Blankish(toColon)
  }

  // ----- the parser reads them so -----

  lemma OneOff(s: string, t: string)
    requires |s| == 1
    ensures s + t != "" && (s + t)[0] == s[0] && (s + t)[1..] == t
  {
  }

  lemma SkipAgain(t: string)
    ensures Skip(Skip(t)) == Skip(t)
  {
  }

  lemma {:induction false} SkipBlank(blank: string, t: string)
    requires Blankish(blank)
    ensures Skip(blank + t) == Skip(t)
  {
    if blank == "" {
      assert "" + t == t;
    } else {
      assert (blank + t)[1..] == blank[1..] + t;
      SkipBlank(blank[1..], t);
    }
  }

  lemma UnitReads(u: Unit, rest: string)
    requires UnitReadable(u)
    ensures u.Itself? ==> ParseChars([u.c] + rest) == Ahead([u.c], ParseChars(rest))
    ensures u.Escape? ==> ParseChars(['\\', u.letter] + rest) == Ahead([CharOf(u)], ParseChars(rest))
  {
    if u.Itself? {
      OneOff([u.c], rest);
    } else {
      var t := ['\\', u.letter] + rest;
      assert t[0] == '\\' && t[1] == u.letter && t[2..] == rest;
    }
  }

  lemma UnitsRest(units: seq<Unit>)
    requires UnitsReadable(units) && units != []
    ensures UnitReadable(units[0]) && UnitsReadable(units[1..])
  {
  }

  /** A string of plain characters and escapes, the escaped slash among them. */
  lemma {:induction false} UnitsRead(units: seq<Unit>, closed: bool, tail: string)
    requires UnitsReadable(units) && Closes(closed, tail)
    ensures ParseChars(SpelledUnits(units, Closing(closed, tail))) == Got(StringOf(units), tail)
  {
    if units == [] {
      OneOff("\"", tail);
    } else {
      UnitsRest(units);
      UnitsRead(units[1..], closed, tail);
      UnitReads(units[0], SpelledUnits(units[1..], Closing(closed, tail)));
    }
  }

  lemma TextReads(units: seq<Unit>, closed: bool, tail: string)
    requires UnitsReadable(units) && Closes(closed, tail)
    ensures ParseString("\"" + SpelledUnits(units, Closing(closed, tail))) == Got(StringOf(units), tail)
  {
    UnitsRead(units, closed, tail);
    OneOff("\"", SpelledUnits(units, Closing(closed, tail)));
  }

  lemma {:induction false} DigitsGoOn(s: string, t: string, n: nat)
    requires AllDigits(s)
    ensures ReadDigits(s + t, n) == ReadDigits(t, ReadDigits(s, n).0) && ReadDigits(s, n).1 == ""
  {
    if s == "" {
      assert s + t == t;
    } else {
      DigitsGoOn(s[1..], t, 10 * n + DigitValue(s[0]));
      assert (s + t)[1..] == s[1..] + t;
    }
  }

  lemma LastDigit(c: char, n: nat)
    requires c in "0123456789"
    ensures IsDigit(c) && ReadDigits([c], n).0 == 10 * n + DigitOf(c)
  {
    assert [c][1..] == "" && ReadDigits("", 10 * n + DigitValue(c)) == (10 * n + DigitValue(c), "");
  }

  lemma {:induction false} DigitsRead(d: string)
    requires forall i :: 0 <= i < |d| ==> d[i] in "0123456789"
    ensures AllDigits(d) && ReadDigits(d, 0).0 == NumberOf(d)
    decreases |d|
  {
    if d != "" {
      var most, last := d[..|d| - 1], d[|d| - 1];
      DigitsRead(most);
      LastDigit(last, NumberOf(most));
      DigitsGoOn(most, [last], 0);
      assert d == most + [last];
    }
  }

  lemma DigitIsOne(c: char)
    ensures c in "0123456789" <==> IsDigit(c)
    ensures c in "123456789" <==> IsDigit(c) && c != '0'
  {
    if IsDigit(c) {
      assert c == "0123456789"[c as int - 48];
      assert c != '0' ==> c == "123456789"[c as int - 49];
    }
  }

  /** Digits with nothing behind that belongs to them. */
  lemma RunReads(d: string, tail: string)
    requires forall i :: 0 <= i < |d| ==> d[i] in "0123456789"
    requires !Begins(tail, "0123456789") && (d != "" ==> d[0] != '0')
    ensures ReadWhole(d + tail) == (NumberOf(d), tail)
  {
    DigitsRead(d);
    DigitsGoOn(d, tail, 0);
    if tail != "" {
      DigitIsOne(tail[0]);
    }
    assert d == "" ==> d + tail == tail;
  }

  lemma {:induction false} ZeroAhead(d: string)
    ensures NumberOf("0" + d) == NumberOf(d)
    decreases |d|
  {
    if d == "" {
      assert "0"[..0] == "" && "0" + "" == "0";
    } else {
      ZeroAhead(d[..|d| - 1]);
      assert ("0" + d)[..|d|] == "0" + d[..|d| - 1];
    }
  }

  lemma ZeroOff(d: string, tail: string)
    requires d != "" && d[0] == '0'
    ensures NumberOf(d) == NumberOf(d[1..]) && After(d + tail, '0') == d[1..] + tail
  {
    assert d == "0" + d[1..];
    Reassociate("0", d[1..], tail);
    ZeroAhead(d[1..]);
    OneOff("0", d[1..] + tail);
  }

  lemma WholeReads(minus: bool, d: string, tail: string)
    requires DigitsReadable(minus, d, tail)
    ensures ReadWhole(After(d + tail, '0')) == (NumberOf(d), tail)
  {
    if d != "" && d[0] == '0' {
      ZeroOff(d, tail);
      if d == "0" {
        assert d[1..] + tail == tail;
        ZeroReads(tail);
      } else {
        RunReads(d[1..], tail);
      }
    } else {
      RunReads(d, tail);
      NoZeroAhead(d, tail);
    }
  }

  lemma ZeroReads(tail: string)
    requires !Begins(tail, "123456789")
    ensures ReadWhole(tail) == (0, tail)
  {
    if tail != "" {
      DigitIsOne(tail[0]);
    }
  }

  lemma NoZeroAhead(d: string, tail: string)
    requires (d != "" ==> d[0] != '0') && !Begins(tail, "0123456789")
    ensures After(d + tail, '0') == d + tail
  {
    assert d != "" ==> (d + tail)[0] == d[0];
    assert d == "" ==> d + tail == tail;
    assert '0' == "0123456789"[0];
  }

  lemma NotGoingOn(tail: string)
    ensures Begins(tail, ".eE") <==> GoesOn(tail)
  {
    assert ".eE"[0] == '.' && ".eE"[1] == 'e' && ".eE"[2] == 'E';
  }

  lemma UnsignedValueReads(d: string, tail: string)
    requires DigitsReadable(false, d, tail) && Fits32(NumberOf(d))
    ensures ParseValue(d + tail) == Got(Number(NumberOf(d)), tail)
  {
    WholeReads(false, d, tail);
    NotGoingOn(tail);
    DigitIsOne(d[0]);
    assert (d + tail)[0] == d[0];
    AsNumber(d + tail);
  }

  lemma SignedValueReads(d: string, tail: string)
    requires DigitsReadable(true, d, tail) && Fits32(Signed(true, NumberOf(d)))
    ensures ParseValue("-" + (d + tail)) == Got(Number(Signed(true, NumberOf(d))), tail)
  {
    WholeReads(true, d, tail);
    NotGoingOn(tail);
    SignedReads(d + tail, NumberOf(d), tail);
  }

  lemma SignedReads(u: string, m: nat, tail: string)
    requires ReadWhole(After(u, '0')) == (m, tail) && !GoesOn(tail) && Fits32(0 - m)
    ensures ParseValue("-" + u) == Got(Number(0 - m), tail)
  {
    OneOff("-", u);
    AsNumber("-" + u);
  }

  lemma AsNumber(t: string)
    requires t != "" && (t[0] == '-' || IsDigit(t[0]))
    ensures ParseValue(t) == ParseNumber(t)
  {
    NoWord(t);
  }

  lemma NotStarts(t: string, word: string)
    requires t != "" && word != "" && t[0] != word[0]
    ensures !Starts(t, word)
  {
    assert |t| >= |word| ==> t[..|word|][0] == t[0];
  }

  lemma NoWord(t: string)
    requires t != "" && t[0] != 'n' && t[0] != 'f' && t[0] != 't'
    ensures !Starts(t, "null") && !Starts(t, "false") && !Starts(t, "true")
  {
    NotStarts(t, "null");
    NotStarts(t, "false");
    NotStarts(t, "true");
  }

  lemma WordsRead(tail: string)
    ensures ParseValue("null" + tail) == Got(Null, tail)
    ensures ParseValue("false" + tail) == Got(False, tail)
    ensures ParseValue("true" + tail) == Got(True, tail)
  {
    assert ("null" + tail)[..4] == "null" && ("null" + tail)[4..] == tail;
    assert ("false" + tail)[..5] == "false" && ("false" + tail)[5..] == tail;
    assert ("true" + tail)[..4] == "true" && ("true" + tail)[4..] == tail;
    NotStarts("false" + tail, "null");
    NotStarts("true" + tail, "null");
    NotStarts("true" + tail, "false");
  }

  /** How the text of a value begins. */
  lemma FirstChar(t: Syntax, tail: string)
    requires Readable(t, tail)
    ensures var u := Spelled(t, tail); u != "" && u[0] as int > 32 && u[0] != ']'
    ensures Skip(Spelled(t, tail)) == Spelled(t, tail)
  {
    if t.Numeral? && !t.minus {
      assert t.digits[0] in "0123456789";
      assert Spelled(t, tail)[0] == t.digits[0];
    }
  }

  /** Whatever text the parser takes is read as what it means, and what stands
      behind it is left. */
  lemma {:induction false} TakesReadable(t: Syntax, tail: string)
    requires Readable(t, tail)
    ensures ParseValue(Spelled(t, tail)) == Got(Meaning(t), tail)
    decreases t, 0
  {
    match t
    case Numeral(minus, digits) => NumeralValue(minus, digits, tail);
    case Text(units, closed) => StringReads(units, closed, tail);
    case List(blank, values) =>
      ListReads(blank, values, tail);
      ListValue(t, tail);
    case Record(blank, pairs) =>
      RecordReads(blank, pairs, tail);
      RecordValue(t, tail);
    case _ => WordsRead(tail);
  }

  lemma NumeralValue(minus: bool, d: string, tail: string)
    requires Readable(Numeral(minus, d), tail)
    ensures ParseValue(Spelled(Numeral(minus, d), tail)) == Got(Meaning(Numeral(minus, d)), tail)
  {
    if minus {
      SignedValueReads(d, tail);
    } else {
      UnsignedValueReads(d, tail);
    }
  }

  lemma ListValue(t: Syntax, tail: string)
    requires t.List?
    requires ParseArray(t.blank + SpelledValues(t.values, "]" + tail)) == Got(Array(ItemsOf(t.values)), tail)
    ensures ParseValue(Spelled(t, tail)) == Got(Meaning(t), tail)
  {
    Opens("[", t.blank + SpelledValues(t.values, "]" + tail));
  }

  lemma RecordValue(t: Syntax, tail: string)
    requires t.Record?
    requires ParseObject(t.blank + SpelledPairs(t.pairs, "}" + tail)) == Got(Object(MembersOf(t.pairs)), tail)
    ensures ParseValue(Spelled(t, tail)) == Got(Meaning(t), tail)
  {
    Opens("{", t.blank + SpelledPairs(t.pairs, "}" + tail));
  }

  lemma StringReads(units: seq<Unit>, closed: bool, tail: string)
    requires UnitsReadable(units) && Closes(closed, tail)
    ensures ParseValue("\"" + SpelledUnits(units, Closing(closed, tail))) == Got(String(StringOf(units)), tail)
  {
    var u := SpelledUnits(units, Closing(closed, tail));
    TextReads(units, closed, tail);
    OneOff("\"", u);
    NoWord("\"" + u);
  }

  lemma Opens(open: string, u: string)
    requires open == "[" || open == "{"
    ensures ParseValue(open + u) == if open == "[" then ParseArray(u) else ParseObject(u)
  {
    OneOff(open, u);
    NoWord(open + u);
  }

  /** A value between blanks, with something behind. */
  lemma PaddedReads(ahead: string, v: Syntax, behind: string, next: string)
    requires Blankish(ahead) && Readable(v, behind + next) && Blankish(behind) && next != "" && next[0] as int > 0x20
    requires ParseValue(Spelled(v, behind + next)) == Got(Meaning(v), behind + next)
    ensures ParsePadded(ahead + Spelled(v, behind + next)) == Got(Meaning(v), next)
  {
    SkipBlank(ahead, Spelled(v, behind + next));
    FirstChar(v, behind + next);
    SkipBlank(behind, next);
  }

  lemma {:induction false} ValuesRead(vs: Values, tail: string)
    requires vs.Value? && ValuesReadable(vs, "]" + tail)
    ensures ParseItems(SpelledValues(vs, "]" + tail)) == Got(ItemsOf(vs), tail)
    decreases vs, 1
  {
    var more, next := vs.more, MoreValues(vs.more, "]" + tail);
    TakesReadable(vs.value, vs.behind + next);
    PaddedReads(vs.ahead, vs.value, vs.behind, next);
    if more.NoValue? {
      OneOff("]", tail);
    } else {
      OneOff(",", SpelledValues(more, "]" + tail));
      ValuesRead(more, tail);
    }
  }

  /** Blanks ahead make no difference to items or members. */
  lemma SameAfterBlanks(t: string)
    ensures ParseItems(Skip(t)) == ParseItems(t) && ParseMembers(Skip(t)) == ParseMembers(t)
  {
    SkipAgain(t);
    assert ParsePadded(Skip(t)) == ParsePadded(t);
    assert ParseName(Skip(t)) == ParseName(t);
  }

  lemma {:induction false} ListReads(blank: string, vs: Values, tail: string)
    requires Blankish(blank) && ValuesReadable(vs, "]" + tail)
    ensures ParseArray(blank + SpelledValues(vs, "]" + tail)) == Got(Array(ItemsOf(vs)), tail)
    decreases vs, 2
  {
    var u := SpelledValues(vs, "]" + tail);
    SkipBlank(blank, u);
    if vs.NoValue? {
      OneOff("]", tail);
    } else {
      var next := MoreValues(vs.more, "]" + tail);
      SkipBlank(vs.ahead, Spelled(vs.value, vs.behind + next));
      FirstChar(vs.value, vs.behind + next);
      ValuesRead(vs, tail);
      SameAfterBlanks(u);
    }
  }

  lemma NameReads(ahead: string, name: seq<Unit>, closed: bool, toColon: string, w: string)
    requires Blankish(ahead) && NameReadable(name, closed, toColon, w)
    ensures ParseName(ahead + ("\"" + SpelledUnits(name, Closing(closed, toColon + (":" + w)))))
      == Got(StringOf(name), w)
  {
    var rest := toColon + (":" + w);
    var q := "\"" + SpelledUnits(name, Closing(closed, rest));
    OneOff("\"", SpelledUnits(name, Closing(closed, rest)));
    SkipBlank(ahead, q);
    TextReads(name, closed, rest);
    OneOff(":", w);
    SkipBlank(toColon, ":" + w);
  }

  lemma {:induction false} PairsRead(ps: Pairs, tail: string)
    requires ps.Pair? && PairsReadable(ps, "}" + tail)
    ensures ParseMembers(SpelledPairs(ps, "}" + tail)) == Got(MembersOf(ps), tail)
    decreases ps, 1
  {
    var more, next := ps.more, MorePairs(ps.more, "}" + tail);
    NameReads(ps.ahead, ps.name, ps.closed, ps.toColon, ps.fromColon + Spelled(ps.value, ps.behind + next));
    TakesReadable(ps.value, ps.behind + next);
    PaddedReads(ps.fromColon, ps.value, ps.behind, next);
    if more.NoPair? {
      OneOff("}", tail);
    } else {
      OneOff(",", SpelledPairs(more, "}" + tail));
      PairsRead(more, tail);
    }
  }

  lemma {:induction false} RecordReads(blank: string, ps: Pairs, tail: string)
    requires Blankish(blank) && PairsReadable(ps, "}" + tail)
    ensures ParseObject(blank + SpelledPairs(ps, "}" + tail)) == Got(Object(MembersOf(ps)), tail)
    decreases ps, 2
  {
    var u := SpelledPairs(ps, "}" + tail);
    SkipBlank(blank, u);
    if ps.NoPair? {
      OneOff("}", tail);
    } else {
      PairsOpen(ps, tail);
      PairsRead(ps, tail);
      SameAfterBlanks(u);
    }
  }

  lemma PairsOpen(ps: Pairs, tail: string)
    requires ps.Pair? && PairsReadable(ps, "}" + tail)
    ensures var u := Skip(SpelledPairs(ps, "}" + tail)); u != "" && u[0] == '\"'
  {
    var rest := ps.toColon + (":" + (ps.fromColon + Spelled(ps.value, ps.behind + MorePairs(ps.more, "}" + tail))));
    OneOff("\"", SpelledUnits(ps.name, Closing(ps.closed, rest)));
    SkipBlank(ps.ahead, "\"" + SpelledUnits(ps.name, Closing(ps.closed, rest)));
  }

  // ----- and nothing else -----

  lemma {:induction false} CharsSpelled(t: string) returns (units: seq<Unit>, closed: bool)
    requires ParseChars(t).Got?
    ensures UnitsReadable(units) && Closes(closed, ParseChars(t).rest)
    ensures t == SpelledUnits(units, Closing(closed, ParseChars(t).rest)) && StringOf(units) == ParseChars(t).value
    decreases |t|
  {
    if t == "" || t[0] as int <= 31 {
      units, closed := [], false;
    } else if t[0] == '\"' {
      units, closed := [], true;
      assert t == "\"" + t[1..];
    } else {
      var u, n := UnitAt(t);
      units, closed := CharsSpelled(t[n..]);
      units := OneMoreUnit(u, units, Closing(closed, ParseChars(t).rest));
    }
  }

  lemma UnitAt(t: string) returns (u: Unit, n: nat)
    requires t != "" && t[0] as int > 31 && t[0] != '\"' && ParseChars(t).Got?
    ensures UnitReadable(u) && 0 < n <= |t| && ParseChars(t) == Ahead([CharOf(u)], ParseChars(t[n..]))
    ensures t == (match u case Itself(c) => [c] case Escape(letter) => ['\\', letter]) + t[n..]
  {
    if t[0] != '\\' {
      u, n := Itself(t[0]), 1;
    } else {
      u, n := Escape(t[1]), 2;
    }
  }

  lemma OneMoreUnit(u: Unit, units: seq<Unit>, tail: string) returns (longer: seq<Unit>)
    requires UnitReadable(u) && UnitsReadable(units)
    ensures UnitsReadable(longer) && StringOf(longer) == [CharOf(u)] + StringOf(units)
    ensures SpelledUnits(longer, tail) ==
      (match u case Itself(c) => [c] case Escape(letter) => ['\\', letter]) + SpelledUnits(units, tail)
  {
    longer := [u] + units;
    assert longer[1..] == units;
    forall i | 0 <= i < |longer| ensures UnitReadable(longer[i]) {
      assert i > 0 ==> longer[i] == units[i - 1];
    }
  }

  lemma {:induction false} SkipSpelled(t: string) returns (blank: string)
    ensures t == blank + Skip(t) && Blankish(blank)
    decreases |t|
  {
    if t != "" && t[0] as int <= 32 {
      blank := SkipSpelled(t[1..]);
      blank := [t[0]] + blank;
      assert t == [t[0]] + t[1..];
    } else {
      blank := "";
    }
  }

  lemma {:induction false} DigitsSpelled(t: string, n: nat) returns (d: string)
    ensures t == d + ReadDigits(t, n).1 && !Begins(ReadDigits(t, n).1, "0123456789")
    ensures forall i :: 0 <= i < |d| ==> d[i] in "0123456789"
    decreases |t|
  {
    if t != "" {
      DigitIsOne(t[0]);
    }
    if t != "" && IsDigit(t[0]) {
      d := DigitsSpelled(t[1..], 10 * n + DigitValue(t[0]));
      d := [t[0]] + d;
      assert t == [t[0]] + t[1..];
    } else {
      d := "";
    }
  }

  /** The digits of a number, behind its sign. */
  lemma WholeSpelled(minus: bool, t: string) returns (d: string)
    requires !GoesOn(ReadWhole(After(t, '0')).1)
    requires minus || (t != "" && IsDigit(t[0]))
    ensures var r := ReadWhole(After(t, '0')); t == d + r.1 && DigitsReadable(minus, d, r.1)
  {
    var u := After(t, '0');
    var rest := ReadWhole(u).1;
    NotGoingOn(rest);
    d := RunSpelled(u);
    if t != "" && t[0] == '0' {
      d := ZeroPut(t, d, rest);
    } else {
      ZeroNotNext(minus, t, d, rest);
    }
  }

  lemma ZeroPut(t: string, d: string, rest: string) returns (all: string)
    requires t != "" && t[0] == '0' && t[1..] == d + rest
    requires (forall i :: 0 <= i < |d| ==> d[i] in "0123456789") && (d != "" ==> d[0] != '0')
    ensures t == all + rest && (forall i :: 0 <= i < |all| ==> all[i] in "0123456789")
    ensures all == "0" <==> d == ""
    ensures all != "" && (|all| > 1 ==> all[1] != '0')
  {
    all := "0" + d;
    Reassociate("0", d, rest);
    assert t == "0" + t[1..];
    assert '0' == "0123456789"[0];
    assert forall i :: 0 < i < |all| ==> all[i] == d[i - 1];
  }

  /** With no zero at hand, none is next. */
  lemma ZeroNotNext(minus: bool, t: string, d: string, rest: string)
    requires t == d + rest && (t != "" ==> t[0] != '0') && (minus || (t != "" && IsDigit(t[0])))
    requires !Begins(rest, if d == "" then "123456789" else "0123456789")
    ensures !Begins(rest, "0123456789") && (d == "" ==> minus) && d != "0"
  {
    if t != "" {
      DigitIsOne(t[0]);
    }
    assert d == "" ==> t == rest;
    assert d != "" ==> t[0] == d[0];
  }

  lemma RunSpelled(u: string) returns (d: string)
    ensures u == d + ReadWhole(u).1 && (forall i :: 0 <= i < |d| ==> d[i] in "0123456789")
    ensures !Begins(ReadWhole(u).1, if d == "" then "123456789" else "0123456789") && (d != "" ==> d[0] != '0')
  {
    if u != "" && u[0] != '0' {
      d := DigitsSpelled(u, 0);
      assert d != "" ==> u[0] == d[0];
      if ReadWhole(u).1 != "" {
        DigitIsOne(ReadWhole(u).1[0]);
      }
    } else {
      d := "";
    }
  }

  lemma NumberSpelled(t: string) returns (y: Syntax)
    requires t != "" && (t[0] == '-' || IsDigit(t[0])) && ParseNumber(t).Got?
    ensures var r := ParseNumber(t); Readable(y, r.rest) && t == Spelled(y, r.rest) && Meaning(y) == r.value
  {
    var minus, u := t[0] == '-', After(t, '-');
    NumberFits(t);
    var d := WholeSpelled(minus, u);
    WholeReads(minus, d, ReadWhole(After(u, '0')).1);
    SignOff(t);
    y := Numeral(minus, d);
  }

  lemma NumberFits(t: string)
    requires t != "" && (t[0] == '-' || IsDigit(t[0])) && ParseNumber(t).Got?
    ensures var w := ReadWhole(After(After(t, '-'), '0'));
      && !GoesOn(w.1) && Fits32(Signed(t[0] == '-', w.0))
      && ParseNumber(t) == Got(Number(Signed(t[0] == '-', w.0)), w.1)
  {
  }

  lemma SignOff(t: string)
    requires t != ""
    ensures t == if t[0] == '-' then "-" + After(t, '-') else After(t, '-')
  {
  }

  lemma StartsWith(t: string, word: string)
    requires Starts(t, word)
    ensures t == word + t[|word|..]
  {
  }

  /** What the parser reads is a text that it is said to take, with its meaning. */
  lemma {:induction false} ValueSpelled(t: string) returns (y: Syntax)
    requires ParseValue(t).Got?
    ensures var r := ParseValue(t); Readable(y, r.rest) && t == Spelled(y, r.rest) && Meaning(y) == r.value
    decreases |t|, 1
  {
    if Starts(t, "null") {
      StartsWith(t, "null");
      y := NullWord;
    } else if Starts(t, "false") {
      StartsWith(t, "false");
      y := FalseWord;
    } else if Starts(t, "true") {
      StartsWith(t, "true");
      y := TrueWord;
    } else if t[0] == '\"' {
      var units, closed := QuoteSpelled(t);
      y := Text(units, closed);
    } else if t[0] == '-' || IsDigit(t[0]) {
      y := NumberSpelled(t);
    } else if t[0] == '[' {
      y := ListSpelled(t[1..]);
      assert t == "[" + t[1..];
    } else {
      y := RecordSpelled(t[1..]);
      assert t == "{" + t[1..];
    }
  }

  lemma {:induction false} ListSpelled(t: string) returns (y: Syntax)
    requires ParseArray(t).Got?
    ensures var r := ParseArray(t); Readable(y, r.rest) && "[" + t == Spelled(y, r.rest) && Meaning(y) == r.value
    decreases |t|, 4
  {
    var blank := SkipSpelled(t);
    var u := Skip(t);
    if u[0] == ']' {
      assert u == "]" + u[1..];
      y := List(blank, NoValue);
    } else {
      var vs := ItemsSpelled(u);
      y := List(blank, vs);
    }
  }

  lemma {:induction false} RecordSpelled(t: string) returns (y: Syntax)
    requires ParseObject(t).Got?
    ensures var r := ParseObject(t); Readable(y, r.rest) && "{" + t == Spelled(y, r.rest) && Meaning(y) == r.value
    decreases |t|, 4
  {
    var blank := SkipSpelled(t);
    var u := Skip(t);
    if u[0] == '}' {
      assert u == "}" + u[1..];
      y := Record(blank, NoPair);
    } else {
      var ps := MembersSpelled(u);
      y := Record(blank, ps);
    }
  }

  lemma {:induction false} PaddedSpelled(t: string) returns (ahead: string, y: Syntax, behind: string)
    requires ParsePadded(t).Got?
    ensures var r := ParsePadded(t);
      && Blankish(ahead) && Readable(y, behind + r.rest) && Blankish(behind)
      && t == ahead + Spelled(y, behind + r.rest) && Meaning(y) == r.value
    decreases |t|, 2
  {
    ahead := SkipSpelled(t);
    y := ValueSpelled(Skip(t));
    behind := SkipSpelled(ParseValue(Skip(t)).rest);
  }

  lemma {:induction false} ItemsSpelled(t: string) returns (vs: Values)
    requires ParseItems(t).Got?
    ensures var r := ParseItems(t);
      && vs.Value? && ValuesReadable(vs, "]" + r.rest)
      && t == SpelledValues(vs, "]" + r.rest) && ItemsOf(vs) == r.value
    decreases |t|, 3
  {
    var ahead, y, behind := PaddedSpelled(t);
    var next := ParsePadded(t).rest;
    if next[0] == ',' {
      var more := ItemsSpelled(next[1..]);
      assert next == "," + next[1..];
      vs := Value(ahead, y, behind, more);
    } else {
      assert next == "]" + next[1..];
      vs := Value(ahead, y, behind, NoValue);
    }
  }

  lemma NameSpelled(t: string) returns (ahead: string, name: seq<Unit>, closed: bool, toColon: string)
    requires ParseName(t).Got?
    ensures var r := ParseName(t);
      && Blankish(ahead) && NameReadable(name, closed, toColon, r.rest) && StringOf(name) == r.value
      && t == ahead + ("\"" + SpelledUnits(name, Closing(closed, toColon + (":" + r.rest))))
  {
    ahead := SkipSpelled(t);
    var u := Skip(t);
    name, closed := QuoteSpelled(u);
    toColon := ColonSpelled(ParseString(u).rest);
  }

  lemma QuoteSpelled(u: string) returns (name: seq<Unit>, closed: bool)
    requires ParseString(u).Got?
    ensures var r := ParseString(u);
      && UnitsReadable(name) && Closes(closed, r.rest) && StringOf(name) == r.value
      && u == "\"" + SpelledUnits(name, Closing(closed, r.rest))
  {
    name, closed := CharsSpelled(u[1..]);
    assert u == "\"" + u[1..];
  }

  lemma ColonSpelled(rest: string) returns (toColon: string)
    requires Skip(rest) != "" && Skip(rest)[0] == ':'
    ensures rest == toColon + (":" + Skip(rest)[1..]) && Blankish(toColon)
  {
    toColon := SkipSpelled(rest);
    assert Skip(rest) == ":" + Skip(rest)[1..];
  }

  lemma {:induction false} MembersSpelled(t: string) returns (ps: Pairs)
    requires ParseMembers(t).Got?
    ensures var r := ParseMembers(t);
      && ps.Pair? && PairsReadable(ps, "}" + r.rest)
      && t == SpelledPairs(ps, "}" + r.rest) && MembersOf(ps) == r.value
    decreases |t|, 3
  {
    var ahead, name, closed, toColon := NameSpelled(t);
    var w := ParseName(t).rest;
    var fromColon, y, behind := PaddedSpelled(w);
    var next := ParsePadded(w).rest;
    if next[0] == ',' {
      var more := MembersSpelled(next[1..]);
      assert next == "," + next[1..];
      ps := Pair(ahead, name, closed, toColon, fromColon, y, behind, more);
    } else {
      assert next == "}" + next[1..];
      ps := Pair(ahead, name, closed, toColon, fromColon, y, behind, NoPair);
    }
  }

  /** So a text is read as a value, with something left, exactly when it is one that
      the parser is said to take with that behind it, and means that value. */
  lemma ReadsExactly(t: string, v: Json, rest: string)
    ensures ParseValue(t) == Got(v, rest) <==>
      exists y :: Readable(y, rest) && t == Spelled(y, rest) && Meaning(y) == v
  {
    if ParseValue(t) == Got(v, rest) {
      var y := ValueSpelled(t);
    }
    forall y | Readable(y, rest) && t == Spelled(y, rest) && Meaning(y) == v ensures ParseValue(t) == Got(v, rest) {
      TakesReadable(y, rest);
    }
  }

  /** The same of a document, which may have blanks ahead. */
  lemma DocumentExactly(t: string, v: Json, rest: string)
    ensures Parse(t) == Got(v, rest) <==>
      exists ahead, y :: Blankish(ahead) && Readable(y, rest) && t == ahead + Spelled(y, rest) && Meaning(y) == v
  {
    if Parse(t) == Got(v, rest) {
      var ahead := SkipSpelled(t);
      var y := ValueSpelled(Skip(t));
      assert t == ahead + Spelled(y, rest);
    }
    forall ahead, y | Blankish(ahead) && Readable(y, rest) && t == ahead + Spelled(y, rest) && Meaning(y) == v
      ensures Parse(t) == Got(v, rest)
    {
      SkipBlank(ahead, Spelled(y, rest));
      FirstChar(y, rest);
      TakesReadable(y, rest);
    }
  }

  // ----- all of the grammar is taken -----

  /** No digit, point or exponent follows. */
  predicate Ends(tail: string) {
    !Begins(tail, "0123456789.eE")
  }

  lemma UnitsTaken(units: seq<Unit>)
    requires UnitsWritten(units)
    ensures UnitsReadable(units)
  {
    forall i | 0 <= i < |units| ensures UnitReadable(units[i]) {
      assert UnitWritten(units[i]);
    }
  }

  lemma EndsBoth(tail: string)
    requires Ends(tail)
    ensures !Begins(tail, "123456789") && !Begins(tail, "0123456789") && !Begins(tail, ".eE")
  {
    assert "0123456789.eE" == "0" + "123456789" + ".eE" && "0123456789" == "0" + "123456789";
  }

  lemma BlankEnds(behind: string, next: string)
    requires Blank(behind) && next != "" && next[0] in ",]}"
    ensures Blankish(behind) && Ends(behind + next)
  {
    if behind == "" {
      assert behind + next == next;
    } else {
      assert (behind + next)[0] == behind[0];
    }
  }

  lemma {:induction false} WrittenIsReadable(t: Syntax, tail: string)
    requires Written(t) && Ends(tail)
    ensures Readable(t, tail)
    decreases t, 0
  {
    match t
    case Numeral(_, _) => EndsBoth(tail);
    case Text(units, _) => UnitsTaken(units);
    case List(_, values) => ValuesTaken(values, "]" + tail);
    case Record(_, pairs) => PairsTaken(pairs, "}" + tail);
    case _ =>
  }

  lemma {:induction false} ValuesTaken(vs: Values, tail: string)
    requires ValuesWritten(vs) && tail != "" && tail[0] in ",]}"
    ensures ValuesReadable(vs, tail)
    decreases vs, 1
  {
    if vs.Value? {
      var next := MoreValues(vs.more, tail);
      BlankEnds(vs.behind, next);
      WrittenIsReadable(vs.value, vs.behind + next);
      ValuesTaken(vs.more, tail);
    }
  }

  lemma {:induction false} PairsTaken(ps: Pairs, tail: string)
    requires PairsWritten(ps) && tail != "" && tail[0] in ",]}"
    ensures PairsReadable(ps, tail)
    decreases ps, 1
  {
    if ps.Pair? {
      var next := MorePairs(ps.more, tail);
      UnitsTaken(ps.name);
      BlankEnds(ps.behind, next);
      WrittenIsReadable(ps.value, ps.behind + next);
      PairsTaken(ps.more, tail);
    }
  }

  /** The text of any value by the grammar is read as that value, and what stands
      behind it is left. */
  lemma ValueReads(t: Syntax, tail: string)
    requires Written(t) && Ends(tail)
    ensures ParseValue(Spelled(t, tail)) == Got(Meaning(t), tail)
  {
    WrittenIsReadable(t, tail);
    TakesReadable(t, tail);
  }

  /** A document: a value between blanks. */
  lemma DocumentReads(ahead: string, t: Syntax, behind: string)
    requires Blank(ahead) && Written(t) && Blank(behind)
    ensures Parse(ahead + Spelled(t, behind)) == Got(Meaning(t), behind)
  {
    assert Ends(behind);
    WrittenIsReadable(t, behind);
    assert Blankish(ahead);
    DocumentExactly(ahead + Spelled(t, behind), Meaning(t), behind);
  }

  /** No text by the grammar, and yet taken: a number with a zero ahead. */
  lemma TakesMore()
    ensures ParseValue("07") == Got(Number(7), "")
    ensures !exists y :: Written(y) && Spelled(y, "") == "07"
  {
    var seven := Numeral(false, "07");
    assert "07"[..1] == "0" && "0"[..0] == "" && NumberOf("0") == 0 && NumberOf("07") == 7;
    assert "07" + "" == "07" && Spelled(seven, "") == "07";
    TakesReadable(seven, "");
    forall y | Spelled(y, "") == "07" ensures !Written(y) {
      assert y.Numeral?;
      assert y.digits + "" == y.digits;
      assert !y.minus;
    }
  }
}
