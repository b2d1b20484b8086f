/** What patterns print, letter by letter: the laws below say it of the interpreter, and so, since the
    compiled components implement it, of a layout. */
module PatternLaws {
  import opened Options
  import opened StringUtil
  import opened Decimal
  import opened PatternLayout
  import opened PatternFields
  import Priority

  /** The text of a conversion specifier stands behind the '%' at i, and ends before e. */
  ghost predicate Specifies(p: string, i: nat, c: Conversion, e: nat) {
    && i < |p| && p[i] == '%' && Writable(c) && StandsAt(p, i + 1, Text(c)) && e == i + 1 + |Text(c)| <= |p|
    && (c.postfix.None? ==> e == |p| || p[e] != '{')
  }

  /** The field prints this text, cut and padded to the widths given here or else pending, and no
      width is pending behind it. */
  ghost predicate Prints(p: string, i: nat, min: int, max: nat, c: Conversion, e: nat, ev: LoggingEvent, text: string)
    requires i < |p| && e <= |p|
  {
    var min' := if c.min == "" then min else if c.left then 0 - Magnitude(c.min) else Magnitude(c.min);
    var max' := if c.max.None? then max else Magnitude(c.max.value);
    Interpret(p, i, min, max, ev)
      == Before(Fit(text, if min' < 0 then -min' else min', max', min' < 0), Interpret(p, e, 0, 0, ev))
  }

  lemma ReadsAs(p: string, i: nat, c: Conversion, e: nat) returns (sp: Specifier)
    requires Specifies(p, i, c, e)
    ensures i < |p| && e <= |p| && SpecifierAt(p, i, sp)
    ensures sp == Specifier(MinValue(c), MaxValue(c), c.ch, Or(c.postfix, ""), e)
  {
    hide Writable, StandsAt, Text, ReadSpecifier, MinValue, MaxValue, Or;
    ReadsBack(p, i + 1, c);
    sp := Specifier(MinValue(c), MaxValue(c), c.ch, Or(c.postfix, ""), e);
  }

  lemma FieldPrints(p: string, i: nat, min: int, max: nat, c: Conversion, e: nat, field: Field, ev: LoggingEvent)
    requires Specifies(p, i, c, e)
    requires LiteralOf(c.ch).None? && FieldOf(c.ch, Or(c.postfix, "")) == Some(field)
    ensures Prints(p, i, min, max, c, e, ev, FieldText(field, ev))
  {
    hide Specifies, SpecifierAt, Interpret, Fit, FieldOf, LiteralOf, FieldText, Magnitude;
    var sp := ReadsAs(p, i, c, e);
    InterpretField(p, i, min, max, sp, field, ev);
  }

  /** The letters without a postfix. */
  lemma LettersPrint(p: string, i: nat, min: int, max: nat, c: Conversion, e: nat, ev: LoggingEvent)
    requires Specifies(p, i, c, e)
    ensures c.ch == 'm' ==> Prints(p, i, min, max, c, e, ev, ev.message)
    ensures c.ch == 't' ==> Prints(p, i, min, max, c, e, ev, ev.threadName)
    ensures c.ch == 'x' ==> Prints(p, i, min, max, c, e, ev, ev.ndc)
    ensures c.ch == 'r' ==> Prints(p, i, min, max, c, e, ev, ev.elapsed)
    ensures c.ch == 'R' ==> Prints(p, i, min, max, c, e, ev, ev.seconds)
    ensures c.ch == 'u' ==> Prints(p, i, min, max, c, e, ev, ev.ticks)
    ensures c.ch == 'p' ==> Prints(p, i, min, max, c, e, ev, Priority.Name(ev.priority))
    ensures c.ch == 'c' && Or(c.postfix, "") == "" ==> Prints(p, i, min, max, c, e, ev, ev.categoryName)
  {
    hide Specifies, Prints, Priority.Name, ScanBack;
    var field := FieldOf(c.ch, Or(c.postfix, ""));
    if LiteralOf(c.ch).None? && field.Some? {
      FieldPrints(p, i, min, max, c, e, field.value, ev);
    }
  }

  /** The time stamp's three named formats; any other postfix is the format itself. */
  lemma TimePrints(p: string, i: nat, min: int, max: nat, c: Conversion, e: nat, ev: LoggingEvent)
    requires Specifies(p, i, c, e) && c.ch == 'd'
    ensures Or(c.postfix, "") in {"", "ISO8601"} ==>
      Prints(p, i, min, max, c, e, ev, ev.time("%Y-%m-%d %H:%M:%S,%l"))
    ensures Or(c.postfix, "") == "ABSOLUTE" ==> Prints(p, i, min, max, c, e, ev, ev.time("%H:%M:%S,%l"))
    ensures Or(c.postfix, "") == "DATE" ==> Prints(p, i, min, max, c, e, ev, ev.time("%d %b %Y %H:%M:%S,%l"))
    ensures Or(c.postfix, "") !in {"", "ISO8601", "ABSOLUTE", "DATE"} ==>
      Prints(p, i, min, max, c, e, ev, ev.time(Or(c.postfix, "")))
  {
    hide Specifies, Prints, Or;
    FieldPrints(p, i, min, max, c, e, TimeStamp(TimeFormat(Or(c.postfix, ""))), ev);
  }

  /** Digits read as their number, or the largest int. */
  lemma NumberPostfix(ds: string)
    requires ds != "" && AllDigits(ds)
    ensures Precision(ds) == if Magnitude(ds) <= 0x7fff_ffff then Magnitude(ds) else 0x7fff_ffff
  {
    assert IsDigit(ds[0]);
    DigitsEndAt(ds, 0, |ds|);
  }

  /** A postfix that begins with a minus sign, or with no number, prints the whole name. */
  lemma CategoryPrintsWhole(p: string, i: nat, min: int, max: nat, c: Conversion, e: nat, ev: LoggingEvent)
    requires Specifies(p, i, c, e) && c.ch == 'c' && c.postfix.Some? && c.postfix.value != ""
    requires var first := c.postfix.value[0]; first == '-' || (!IsDigit(first) && !IsBlank(first) && first != '+')
    ensures Prints(p, i, min, max, c, e, ev, ev.categoryName)
  {
    hide Specifies, Prints;
    NoPrecision(c.postfix.value);
    hide Precision;
    FieldPrints(p, i, min, max, c, e, CategoryName(Precision(c.postfix.value)), ev);
  }

  lemma NoPrecision(s: string)
    requires s != "" && (s[0] == '-' || (!IsDigit(s[0]) && !IsBlank(s[0]) && s[0] != '+'))
    ensures Precision(s) <= 0
  {
  }

  /** %c{n}, n written in digits, prints the last n dot-separated segments of the category name, or
      all of it for 0; for a name that begins with a dot, only if it has that many dots. */
  lemma CategoryPrints(p: string, i: nat, min: int, max: nat, c: Conversion, e: nat, ev: LoggingEvent)
    requires Specifies(p, i, c, e) && c.ch == 'c' && c.postfix.Some? && IsNumber(c.postfix.value, INT_MAX)
    requires |ev.categoryName| < NPOS
    ensures var n, name := Magnitude(c.postfix.value), ev.categoryName;
      && (n == 0 ==> Prints(p, i, min, max, c, e, ev, name))
      && (n >= 1 && (name == "" || name[0] != '.' || n <= Dots(name, |name|))
          ==> Prints(p, i, min, max, c, e, ev, LastSegments(name, n)))
  {
    var n := Magnitude(c.postfix.value);
    NumberInRange(c.postfix.value);
    NumberPostfix(c.postfix.value);
    hide Specifies, Prints, IsNumber, Precision, Magnitude, Dots, LastSegments;
    if n >= 1 {
      CategoryTextIsLastSegments(ev.categoryName, n);
    }
    FieldPrints(p, i, min, max, c, e, CategoryName(n), ev);
  }

  lemma NumberInRange(ds: string)
    requires IsNumber(ds, INT_MAX)
    ensures ds != "" && AllDigits(ds) && Magnitude(ds) <= INT_MAX
  {
  }

  /** %% and %n stand for themselves; a width given with them waits for the next field. */
  lemma LiteralsPrint(p: string, i: nat, min: int, max: nat, c: Conversion, e: nat, ev: LoggingEvent)
    requires Specifies(p, i, c, e)
    ensures var min' := if c.min == "" then min else if c.left then 0 - Magnitude(c.min) else Magnitude(c.min);
      var max' := if c.max.None? then max else Magnitude(c.max.value);
      && (c.ch == '%' ==> Interpret(p, i, min, max, ev) == Before("%", Interpret(p, e, min', max', ev)))
      && (c.ch == 'n' ==> Interpret(p, i, min, max, ev) == Before("\n", Interpret(p, e, min', max', ev)))
  {
    hide Interpret, Specifies, SpecifierAt, Magnitude;
    var sp := ReadsAs(p, i, c, e);
    if LiteralOf(sp.ch).Some? {
      InterpretLiteral(p, i, min, max, sp, ev);
    }
  }

  /** Every other letter is refused. */
  lemma OthersStop(p: string, i: nat, min: int, max: nat, c: Conversion, e: nat, ev: LoggingEvent)
    requires Specifies(p, i, c, e) && c.ch !in "%ncdmprRtux"
    ensures Interpret(p, i, min, max, ev) == Outcome("", Some(UnknownSpecifier(c.ch)))
  {
    hide Specifies, ReadSpecifier, Precision, TimeFormat, MinValue, MaxValue, Or;
    var sp := ReadsAs(p, i, c, e);
    NoLetter(c.ch, sp.postfix);
  }

  lemma NoLetter(ch: char, postfix: string)
    requires ch !in "%ncdmprRtux"
    ensures LiteralOf(ch).None? && FieldOf(ch, postfix).None?
  {
    var letters := "%ncdmprRtux";
    assert letters[0] == '%' && letters[1] == 'n' && letters[2] == 'c' && letters[3] == 'd' && letters[4] == 'm';
    assert letters[5] == 'p' && letters[6] == 'r' && letters[7] == 'R' && letters[8] == 't' && letters[9] == 'u';
    assert letters[10] == 'x';
  }

  /** Text without '%' prints itself and leaves pending widths pending. */
  lemma {:induction false} TextPrints(p: string, i: nat, e: nat, min: int, max: nat, ev: LoggingEvent)
    requires i <= e <= |p| && '%' !in p[i..e]
    ensures Interpret(p, i, min, max, ev) == Before(p[i..e], Interpret(p, e, min, max, ev))
    decreases e - i
  {
    if i == e {
      assert "" + Interpret(p, e, min, max, ev).text == Interpret(p, e, min, max, ev).text;
    } else {
      assert p[i] == p[i..e][0] && p[i + 1..e] == p[i..e][1..];
      TextPrints(p, i + 1, e, min, max, ev);
      BeforeBefore([p[i]], p[i + 1..e], Interpret(p, e, min, max, ev));
      assert [p[i]] + p[i + 1..e] == p[i..e];
    }
  }

  /** A specifier without a letter: the pattern ends behind the '%', the sign or the width, or what
      should be a width has no digits. */
  lemma UnterminatedStops(p: string, i: nat, left: bool, ds: string, min: int, max: nat, ev: LoggingEvent)
    requires i < |p| && p[i] == '%' && AllDigits(ds) && StandsAt(p, i + 1, Sign(left) + ds)
    requires var e := i + 1 + |Sign(left) + ds|;
      || e == |p|
      || (left && ds == "" && !IsDigit(p[e]))
      || (p[e] == '.' && (e + 1 == |p| || (!IsDigit(p[e + 1]) && !IsBlank(p[e + 1]) && p[e + 1] !in {'-', '+'})))
    ensures Interpret(p, i, min, max, ev) == Outcome("", Some(Unterminated))
  {
    WidthEnds(p, i + 1, left, ds);
    hide Interpret, StandsAt, AllDigits;
    NothingRead(p, i + 1, left, i + 1 + |Sign(left) + ds|);
    InterpretUnread(p, i, min, max, ev);
  }

  /** A sign and digits, as far as they go. */
  lemma WidthEnds(p: string, i: nat, left: bool, ds: string)
    requires AllDigits(ds) && StandsAt(p, i, Sign(left) + ds)
    requires i + |Sign(left) + ds| < |p| ==> !IsDigit(p[i + |Sign(left) + ds|])
    ensures var from, e := i + |Sign(left)|, i + |Sign(left) + ds|;
      && (left ==> p[i] == '-') && (e > from ==> IsDigit(p[from])) && e <= |p| && DigitsEnd(p, from) == e
  {
    StandsSplit(p, i, Sign(left), ds);
    if left {
      FirstAt(p, i, "-");
    }
    var from, e := i + |Sign(left)|, i + |Sign(left) + ds|;
    forall k | from <= k < e ensures IsDigit(p[k]) {
      assert p[from + (k - from)] == ds[k - from];
    }
    DigitsEndAt(p, from, e);
  }

  lemma NothingRead(p: string, i: nat, left: bool, e: nat)
    requires i + |Sign(left)| <= e <= |p| && DigitsEnd(p, i + |Sign(left)|) == e
    requires (left ==> p[i] == '-') && (e > i + |Sign(left)| ==> IsDigit(p[i + |Sign(left)|]))
    requires
      || e == |p|
      || (left && e == i + 1)
      || (p[e] == '.' && (e + 1 == |p| || (!IsDigit(p[e + 1]) && !IsBlank(p[e + 1]) && p[e + 1] !in {'-', '+'})))
    ensures ReadSpecifier(p, i).None?
  {
    hide NumberAt;
  }

  lemma InterpretUnread(p: string, i: nat, min: int, max: nat, ev: LoggingEvent)
    requires i < |p| && p[i] == '%' && ReadSpecifier(p, i + 1).None?
    ensures Interpret(p, i, min, max, ev) == Outcome("", Some(Unterminated))
  {
    hide ReadSpecifier;
  }

  // ---------------------------------------------------------------------------------------
  // The server's own pattern
  // ---------------------------------------------------------------------------------------

  const SERVER_PATTERN := "%d{%m-%d %H:%M:%S %l} [%t][%p]%m%n"

  function ServerLine(ev: LoggingEvent): string {
    ev.time("%m-%d %H:%M:%S %l") + " [" + ev.threadName + "][" + Priority.Name(ev.priority) + "]" + ev.message + "\n"
  }

  function Bare(ch: char): Conversion {
    Conversion(false, "", None, ch, None)
  }

  lemma BareStands(p: string, i: nat, ch: char)
    requires i + 1 < |p| && p[i] == '%' && p[i + 1] == ch && ch in "mnpt" && (i + 2 == |p| || p[i + 2] != '{')
    ensures Specifies(p, i, Bare(ch), i + 2)
  {
    assert Text(Bare(ch)) == [ch];
  }

  /** A letter alone prints its field as it is. */
  lemma BarePrints(p: string, i: nat, c: Conversion, e: nat, ev: LoggingEvent, text: string)
    requires i < |p| && e <= |p| && c.min == "" && c.max.None? && Prints(p, i, 0, 0, c, e, ev, text)
    ensures Interpret(p, i, 0, 0, ev) == Before(text, Interpret(p, e, 0, 0, ev))
  {
    hide Interpret;
  }

  /** The parts of the server's pattern and where they stand. */
  ghost predicate ServerShape(p: string) {
    && |p| == 34 && p[0] == '%' && StandsAt(p, 1, "d{%m-%d %H:%M:%S %l}")
    && p[21] == ' ' && p[22] == '[' && p[23] == '%' && p[24] == 't' && p[25] == ']' && p[26] == '['
    && p[27] == '%' && p[28] == 'p' && p[29] == ']'
    && p[30] == '%' && p[31] == 'm' && p[32] == '%' && p[33] == 'n'
  }

  lemma ServerPatternShape()
    ensures ServerShape(SERVER_PATTERN)
  {
    var p, date := SERVER_PATTERN, "d{%m-%d %H:%M:%S %l}";
    assert p == "%" + date + " [%t][%p]%m%n";
    assert forall k :: 0 <= k < |date| ==> p[1 + k] == date[k];
  }

  lemma DatePrints(p: string, ev: LoggingEvent)
    requires ServerShape(p)
    ensures Interpret(p, 0, 0, 0, ev) == Before(ev.time("%m-%d %H:%M:%S %l"), Interpret(p, 21, 0, 0, ev))
  {
    var c := Conversion(false, "", None, 'd', Some("%m-%d %H:%M:%S %l"));
    assert Text(c) == "d{%m-%d %H:%M:%S %l}";
    assert Specifies(p, 0, c, 21);
    hide Interpret, Specifies, Prints;
    TimePrints(p, 0, 0, 0, c, 21, ev);
    BarePrints(p, 0, c, 21, ev, ev.time("%m-%d %H:%M:%S %l"));
  }

  lemma LetterPrints(p: string, i: nat, ch: char, ev: LoggingEvent)
    requires i + 1 < |p| && p[i] == '%' && p[i + 1] == ch && ch in "mpt" && (i + 2 == |p| || p[i + 2] != '{')
    ensures ch == 'm' ==> Interpret(p, i, 0, 0, ev) == Before(ev.message, Interpret(p, i + 2, 0, 0, ev))
    ensures ch == 't' ==> Interpret(p, i, 0, 0, ev) == Before(ev.threadName, Interpret(p, i + 2, 0, 0, ev))
    ensures ch == 'p' ==> Interpret(p, i, 0, 0, ev) == Before(Priority.Name(ev.priority), Interpret(p, i + 2, 0, 0, ev))
  {
    BareStands(p, i, ch);
    hide Interpret, Specifies, Prints, Priority.Name;
    LettersPrint(p, i, 0, 0, Bare(ch), i + 2, ev);
    if ch == 'm' {
      BarePrints(p, i, Bare(ch), i + 2, ev, ev.message);
    } else if ch == 't' {
      BarePrints(p, i, Bare(ch), i + 2, ev, ev.threadName);
    } else if ch == 'p' {
      BarePrints(p, i, Bare(ch), i + 2, ev, Priority.Name(ev.priority));
    }
  }

  /** Where the pattern ends. */
  lemma LinePrints(p: string, i: nat, ev: LoggingEvent)
    requires i + 2 == |p| && p[i] == '%' && p[i + 1] == 'n'
    ensures Interpret(p, i, 0, 0, ev) == Outcome("\n", None)
  {
    BareStands(p, i, 'n');
    LiteralsPrint(p, i, 0, 0, Bare('n'), i + 2, ev);
    assert Interpret(p, |p|, 0, 0, ev) == Outcome("", None);
  }

  lemma ServerShapePrints(p: string, ev: LoggingEvent)
    requires ServerShape(p)
    ensures Interpret(p, 0, 0, 0, ev) == Outcome(ServerLine(ev), None)
  {
    assert p[21..23] == " [" && p[25..27] == "][" && p[29..30] == "]";
    hide Interpret, Priority.Name;
    DatePrints(p, ev);
    TextPrints(p, 21, 23, 0, 0, ev);
    LetterPrints(p, 23, 't', ev);
    TextPrints(p, 25, 27, 0, 0, ev);
    LetterPrints(p, 27, 'p', ev);
    TextPrints(p, 29, 30, 0, 0, ev);
    LetterPrints(p, 30, 'm', ev);
    LinePrints(p, 32, ev);
    hide *;
    Concatenation(ev.time("%m-%d %H:%M:%S %l"), ev.threadName, Priority.Name(ev.priority), ev.message);
  }

  lemma Concatenation(date: string, thread: string, name: string, message: string)
    ensures date + (" [" + (thread + ("][" + (name + ("]" + (message + "\n"))))))
         == date + " [" + thread + "][" + name + "]" + message + "\n"
  {
  }

  /** What the server's pattern prints of every event. */
  lemma ServerPatternPrints(ev: LoggingEvent)
    ensures Interpret(SERVER_PATTERN, 0, 0, 0, ev) == Outcome(ServerLine(ev), None)
  {
    ServerPatternShape();
    hide *;
    ServerShapePrints(SERVER_PATTERN, ev);
  }

  /** A layout with the server's pattern accepts it and prints that of every event. */
  method ServerLog(ev: LoggingEvent) returns (error: Option<Error>, line: string)
    ensures error.None? && line == ServerLine(ev)
  {
    var layout := new PatternLayout();
    error := layout.SetConversionPattern(SERVER_PATTERN);
    ServerPatternPrints(ev);
    line := layout.Format(ev);
  }
}
