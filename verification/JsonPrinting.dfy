/** What the printer writes is by the grammar, and comes back from the parser. */
module JsonPrinting {
  import opened Rows
  import opened JsonText
  import opened JsonGrammar

  // ----- the printer writes them -----

  /** What is dropped of a string: control characters without an escape letter. */
  lemma DroppedExactly(c: char)
    ensures Dropped(c) <==> c as int < 0x20 && c as int !in {0x8, 0x9, 0xA, 0xC, 0xD}
  {
  }

  /** How the printer writes a character that it does not drop. */
  function UnitOf(c: char): (u: Unit)
    requires !Dropped(c)
    ensures UnitWritten(u) && Escaped(c) == match u
      case Itself(d) => [d]
      case Escape(letter) => ['\\', letter]
    ensures match u
      case Itself(d) => d == c
      case Escape(letter) => CODES[letter] == c as int
  {
    if Plain(c) then Itself(c) else Escape(Letter(c)[0])
  }

  function UnitsOf(s: string): (units: seq<Unit>)
    ensures UnitsWritten(units)
  {
    if s == "" then [] else if Dropped(s[0]) then UnitsOf(s[1..]) else [UnitOf(s[0])] + UnitsOf(s[1..])
  }

  lemma {:induction false} UnitsPrint(s: string, tail: string)
    ensures EscapedAll(s) + tail == SpelledUnits(UnitsOf(s), tail) && StringOf(UnitsOf(s)) == StripChars(s)
  {
    if s == "" {
      assert "" + tail == tail;
    } else {
      UnitsPrint(s[1..], tail);
      Reassociate(Escaped(s[0]), EscapedAll(s[1..]), tail);
      if Dropped(s[0]) {
        assert "" + (EscapedAll(s[1..]) + tail) == EscapedAll(s[1..]) + tail;
        assert "" + StripChars(s[1..]) == StripChars(s[1..]);
      } else {
        assert ([UnitOf(s[0])] + UnitsOf(s[1..]))[1..] == UnitsOf(s[1..]);
        assert CODES[UnitLetter(s[0])] as char == s[0] || UnitOf(s[0]).Itself?;
      }
    }
  }

  function UnitLetter(c: char): (l: char)
    ensures l in CODES
  {
    if !Dropped(c) && UnitOf(c).Escape? then UnitOf(c).letter else 'n'
  }

  lemma QuotedPrints(s: string, tail: string)
    ensures Quoted(s) + tail == "\"" + SpelledUnits(UnitsOf(s), "\"" + tail)
  {
    UnitsPrint(s, "\"" + tail);
    RegroupFour("\"", EscapedAll(s), "\"", tail);
  }

  lemma {:induction false} DigitsPrint(n: nat)
    ensures DigitsWritten(Digits(n)) && NumberOf(Digits(n)) == n && (n > 0 ==> Digits(n)[0] != '0')
  {
    var last := Digit(n % 10);
    DigitPrints(n % 10);
    if n < 10 {
      assert [last][..0] == "";
    } else {
      DigitsPrint(n / 10);
      var d := Digits(n / 10);
      assert (d + [last])[..|d|] == d && (d + [last])[0] == d[0];
    }
  }

  lemma DigitPrints(k: nat)
    requires k < 10
    ensures Digit(k) in "0123456789" && DigitOf(Digit(k)) == k && (Digit(k) == '0' <==> k == 0)
  {
    assert Digit(k) == "0123456789"[k];
  }

  function NumeralOf(n: int): Syntax {
    if n < 0 then Numeral(true, Digits(-n)) else Numeral(false, Digits(n))
  }

  lemma NumeralPrints(minus: bool, m: nat)
    requires In32Bits(Signed(minus, m))
    ensures var t := Numeral(minus, Digits(m)); Written(t) && Meaning(t) == Number(Signed(minus, m))
  {
    DigitsPrint(m);
  }

  lemma NumberPrints(n: int, tail: string)
    requires In32Bits(n)
    ensures var t := NumeralOf(n); Written(t) && Meaning(t) == Number(n) && Decimal(n) + tail == Spelled(t, tail)
  {
    if n < 0 {
      NumeralPrints(true, -n);
      Reassociate("-", Digits(-n), tail);
    } else {
      NumeralPrints(false, n);
    }
  }

  /** The text that is printed for a value, by the grammar. */
  function SyntaxOf(v: Json, depth: nat, fmt: bool): Syntax {
    match v
    case Null => NullWord
    case False => FalseWord
    case True => TrueWord
    case Number(n) => NumeralOf(n)
    case String(s) => Text(UnitsOf(s), true)
    case Array(items) => List("", ValuesFor(items, "", depth + 1, fmt))
    case Object(members) =>
      if members.NoMember? then Record(Roomy(fmt, "\n") + Roomy(fmt, Tabs(depth)), NoPair)
      else Record("", PairsFor(members, depth + 1, fmt, depth))
  }

  function ValuesFor(items: Items, ahead: string, depth: nat, fmt: bool): Values {
    match items
    case NoItem => NoValue
    case Item(v, more) => Value(ahead, SyntaxOf(v, depth, fmt), "", ValuesFor(more, Roomy(fmt, " "), depth, fmt))
  }

  function PairsFor(members: Members, depth: nat, fmt: bool, outer: nat): Pairs {
    match members
    case NoMember => NoPair
    case Member(name, v, more) =>
      Pair(Roomy(fmt, "\n") + Roomy(fmt, Tabs(depth)), UnitsOf(name), true, "", Roomy(fmt, "\t"),
        SyntaxOf(v, depth, fmt), if more.NoMember? then Roomy(fmt, "\n") + Roomy(fmt, Tabs(outer)) else "",
        PairsFor(more, depth, fmt, outer))
  }

  lemma {:induction false} TabsBlank(n: nat)
    ensures Blank(Tabs(n))
  {
    if n > 0 {
      TabsBlank(n - 1);
    }
  }

  lemma RoomyBlank(fmt: bool, depth: nat)
    ensures Blank(Roomy(fmt, "\n") + Roomy(fmt, Tabs(depth))) && Blank(Roomy(fmt, " ")) && Blank(Roomy(fmt, "\t"))
  {
    TabsBlank(depth);
  }

  /** A text is by the grammar and means a value without its dropped characters. */
  predicate PrintedAs(text: string, v: Json, t: Syntax, tail: string) {
    Written(t) && Meaning(t) == Strip(v) && text + tail == Spelled(t, tail)
  }

  /** What is printed is a text by the grammar, and means the value without its
      dropped characters. */
  lemma {:induction false} PrintsByGrammar(v: Json, depth: nat, fmt: bool, tail: string)
    requires WellFormed(v)
    ensures var t := SyntaxOf(v, depth, fmt);
      Written(t) && Meaning(t) == Strip(v) && Print(v, depth, fmt) + tail == Spelled(t, tail)
    decreases v, 0
  {
    match v
    case Number(n) => NumberPrints(n, tail);
    case String(s) =>
      UnitsPrint(s, "");
      QuotedPrints(s, tail);
    case Array(items) =>
      ItemsByGrammar(items, "", depth + 1, fmt, "]" + tail);
      RegroupFour("[", PrintItems(items, depth + 1, fmt), "]", tail);
      EmptyAhead(PrintItems(items, depth + 1, fmt) + ("]" + tail));
      EmptyAhead(PrintItems(items, depth + 1, fmt));
    case Object(members) => ObjectByGrammar(members, depth, fmt, tail);
    case _ =>
  }

  lemma EmptyAhead(s: string)
    ensures "" + s == s
  {
  }

  lemma {:induction false} ItemsByGrammar(items: Items, ahead: string, depth: nat, fmt: bool, tail: string)
    requires WellFormedItems(items) && Blank(ahead)
    ensures var vs := ValuesFor(items, ahead, depth, fmt);
      && ValuesWritten(vs) && ItemsOf(vs) == StripItems(items)
      && (items.Item? ==> ahead + PrintItems(items, depth, fmt) + tail == SpelledValues(vs, tail))
      && (items.NoItem? ==> PrintItems(items, depth, fmt) + tail == SpelledValues(vs, tail))
    decreases items, 1
  {
    RoomyBlank(fmt, 0);
    match items
    case NoItem => EmptyAhead(tail);
    case Item(v, more) =>
      var p, rest := Print(v, depth, fmt), PrintItems(more, depth, fmt);
      var next := if more.NoItem? then tail else "," + (Roomy(fmt, " ") + rest + tail);
      ItemsByGrammar(more, Roomy(fmt, " "), depth, fmt, tail);
      PrintsByGrammar(v, depth, fmt, "" + next);
      ItemGroups(ahead, p, Roomy(fmt, " "), rest, tail, more.NoItem?);
  }

  lemma ItemGroups(ahead: string, p: string, blank: string, rest: string, tail: string, last: bool)
    requires last ==> rest == ""
    ensures ahead + (p + (if last then "" else "," + blank) + rest) + tail
      == ahead + (p + ("" + (if last then tail else "," + (blank + rest + tail))))
  {
    if last {
      assert p + "" + "" == p;
    } else {
      assert p + ("," + blank) + rest + tail == p + ("," + (blank + rest + tail));
    }
  }

  lemma {:induction false} ObjectByGrammar(members: Members, depth: nat, fmt: bool, tail: string)
    requires WellFormedMembers(members)
    ensures PrintedAs(Print(Object(members), depth, fmt), Object(members), SyntaxOf(Object(members), depth, fmt), tail)
    decreases members, 2
  {
    if members.NoMember? {
      EmptyByGrammar(depth, fmt, tail);
    } else {
      var ps := PairsFor(members, depth + 1, fmt, depth);
      MembersByGrammar(members, depth + 1, fmt, depth, "}" + tail);
      ObjectPrints(members, depth, fmt, tail, SpelledPairs(ps, "}" + tail));
      RecordPrinted(Print(Object(members), depth, fmt), members, ps, tail);
      ObjectSyntax(members, depth, fmt);
    }
  }

  lemma EmptyByGrammar(depth: nat, fmt: bool, tail: string)
    ensures var v := Object(NoMember); PrintedAs(Print(v, depth, fmt), v, SyntaxOf(v, depth, fmt), tail)
  {
    RoomyBlank(fmt, depth);
    EmptyGroups(Roomy(fmt, "\n"), Roomy(fmt, Tabs(depth)), tail);
  }

  lemma EmptyGroups(line: string, close: string, tail: string)
    ensures "{" + line + "" + close + "}" + tail == "{" + ((line + close) + ("}" + tail))
  {
  }

  lemma ObjectSyntax(members: Members, depth: nat, fmt: bool)
    requires members.Member?
    ensures SyntaxOf(Object(members), depth, fmt) == Record("", PairsFor(members, depth + 1, fmt, depth))
  {
  }

  lemma RecordPrinted(text: string, members: Members, ps: Pairs, tail: string)
    requires PairsWritten(ps) && MembersOf(ps) == StripMembers(members)
    requires text + tail == "{" + ("" + SpelledPairs(ps, "}" + tail))
    ensures PrintedAs(text, Object(members), Record("", ps), tail)
  {
  }

  lemma ObjectPrints(members: Members, depth: nat, fmt: bool, tail: string, pairs: string)
    requires Roomy(fmt, "\n") + PrintMembers(members, depth + 1, fmt) + Roomy(fmt, Tabs(depth)) + ("}" + tail) == pairs
    ensures Print(Object(members), depth, fmt) + tail == "{" + ("" + pairs)
  {
    ObjectGroups(Roomy(fmt, "\n"), PrintMembers(members, depth + 1, fmt), Roomy(fmt, Tabs(depth)), tail, pairs);
  }

  lemma ObjectGroups(line: string, body: string, close: string, tail: string, pairs: string)
    requires line + body + close + ("}" + tail) == pairs
    ensures "{" + line + body + close + "}" + tail == "{" + ("" + pairs)
  {
  }

  lemma {:induction false} MembersByGrammar(members: Members, depth: nat, fmt: bool, outer: nat, tail: string)
    requires members.Member? && WellFormedMembers(members)
    ensures var ps := PairsFor(members, depth, fmt, outer);
      && PairsWritten(ps) && MembersOf(ps) == StripMembers(members)
      && Roomy(fmt, "\n") + PrintMembers(members, depth, fmt) + Roomy(fmt, Tabs(outer)) + tail == SpelledPairs(ps, tail)
    decreases members, 1
  {
    var line, tabs, tab, close := Roomy(fmt, "\n"), Roomy(fmt, Tabs(depth)), Roomy(fmt, "\t"), Roomy(fmt, Tabs(outer));
    var name, v, more := members.name, members.value, members.more;
    var rest := PrintMembers(more, depth, fmt);
    var behind := if more.NoMember? then line + close else "";
    var next := if more.NoMember? then tail else "," + (line + rest + close + tail);
    RoomyBlank(fmt, depth);
    RoomyBlank(fmt, outer);
    UnitsPrint(name, "");
    if !more.NoMember? {
      MembersByGrammar(more, depth, fmt, outer, tail);
    }
    PrintsByGrammar(v, depth, fmt, behind + next);
    var p := Print(v, depth, fmt);
    QuotedPrints(name, "" + (":" + (tab + (p + (behind + next)))));
    MemberGroups(line, tabs, Quoted(name), tab, p, rest, close, tail, more.NoMember?);
  }

  lemma MemberGroups(line: string, tabs: string, q: string, tab: string, p: string, rest: string, close: string,
                     tail: string, last: bool)
    requires last ==> rest == ""
    ensures line + (tabs + q + ":" + tab + p + (if last then "" else ",") + line + rest) + close + tail
      == (line + tabs) + (q + ("" + (":" + (tab + (p + (if last then (line + close) + tail
                                                      else "" + ("," + (line + rest + close + tail))))))))
  {
    if last {
      assert line + (tabs + q + ":" + tab + p + "" + line + "") + close + tail
        == (line + tabs) + (q + ("" + (":" + (tab + (p + ((line + close) + tail))))));
    } else {
      assert line + (tabs + q + ":" + tab + p + "," + line + rest) + close + tail
        == (line + tabs) + (q + ("" + (":" + (tab + (p + ("" + ("," + (line + rest + close + tail))))))));
    }
  }

  /** No blank outside the strings. */
  predicate Tight(t: Syntax) {
    match t
    case List(blank, values) => blank == "" && TightValues(values)
    case Record(blank, pairs) => blank == "" && TightPairs(pairs)
    case _ => true
  }

  predicate TightValues(vs: Values) {
    vs.Value? ==> vs.ahead == vs.behind == "" && Tight(vs.value) && TightValues(vs.more)
  }

  predicate TightPairs(ps: Pairs) {
    ps.Pair? ==>
      && ps.ahead == ps.toColon == ps.fromColon == ps.behind == ""
      && Tight(ps.value) && TightPairs(ps.more)
  }

  /** Without formatting no blank is printed outside the strings. */
  lemma UnformattedIsTight(v: Json, depth: nat, tail: string)
    requires WellFormed(v)
    ensures exists t ::
      Tight(t) && Written(t) && Meaning(t) == Strip(v) && Print(v, depth, false) + tail == Spelled(t, tail)
  {
    PrintsByGrammar(v, depth, false, tail);
    SyntaxTight(v, depth);
  }

  lemma {:induction false} SyntaxTight(v: Json, depth: nat)
    ensures Tight(SyntaxOf(v, depth, false))
    decreases v, 0
  {
    match v
    case Array(items) => ValuesTight(items, depth + 1);
    case Object(members) => PairsTight(members, depth + 1, depth);
    case _ =>
  }

  lemma {:induction false} ValuesTight(items: Items, depth: nat)
    ensures TightValues(ValuesFor(items, "", depth, false))
    decreases items, 1
  {
    if items.Item? {
      SyntaxTight(items.value, depth);
      ValuesTight(items.more, depth);
    }
  }

  lemma {:induction false} PairsTight(members: Members, depth: nat, outer: nat)
    ensures TightPairs(PairsFor(members, depth, false, outer))
    decreases members, 1
  {
    if members.Member? {
      SyntaxTight(members.value, depth);
      PairsTight(members.more, depth, outer);
    }
  }

  // ----- the round trip -----

  /** A printed value is read back, with anything behind that does not go on with
      a number. */
  lemma ValueBack(v: Json, depth: nat, fmt: bool, tail: string)
    requires WellFormed(v) && Ends(tail)
    ensures ParseValue(Print(v, depth, fmt) + tail) == Got(Strip(v), tail)
  {
    PrintsByGrammar(v, depth, fmt, tail);
    ValueReads(SyntaxOf(v, depth, fmt), tail);
  }

  /** Parsing what was printed, in either layout and however deep, gives the
      value without the control characters that have no escape of their own, and
      so the value itself exactly when it has none. */
  lemma RoundTrip(v: Json, depth: nat, fmt: bool)
    requires WellFormed(v)
    ensures Parse(Print(v, depth, fmt)) == Got(Strip(v), "")
    ensures Parse(Print(v, depth, fmt)) == Got(v, "") <==> Clean(v)
  {
    PrintsByGrammar(v, depth, fmt, "");
    assert Print(v, depth, fmt) + "" == Print(v, depth, fmt);
    EmptyAhead(Spelled(SyntaxOf(v, depth, fmt), ""));
    DocumentReads("", SyntaxOf(v, depth, fmt), "");
    StripExact(v);
  }
}
