/** The pattern layout: a conversion pattern is compiled to components once, and the components
    format every event. The partner is an interpreter that reads the pattern for each event. */
module PatternLayout {
  import opened Options
  import opened StringUtil
  import opened Decimal
  import Priority

  /** What a layout can see of an event. Clock readings come as the text they print as, and `time`
      stands for strftime with milliseconds. */
  datatype LoggingEvent = LoggingEvent(
    categoryName: string,
    message: string,
    ndc: string,
    priority: int,
    threadName: string,
    ticks: string,
    seconds: string,
    elapsed: string,
    time: string -> string
  )

  datatype Field =
    | CategoryName(precision: int)   // -1: none given
    | TimeStamp(format: string)
    | Message | PriorityName | Elapsed | Seconds | ThreadName | ProcessorTime | Ndc

  datatype Component =
    | Literal(text: string)
    | Plain(field: Field)
    | Modified(field: Field, minWidth: nat, maxWidth: nat, alignLeft: bool)

  datatype Error = Unterminated | UnknownSpecifier(ch: char)

  const INT_MAX: nat := 0x7fff_ffff
  const NPOS: nat := 0xffff_ffff_ffff_ffff

  // ---------------------------------------------------------------------------------------
  // Reading numbers from a stream
  // ---------------------------------------------------------------------------------------

  /** A number and the position behind it. */
  datatype Number = Number(value: int, next: nat)

  predicate IsBlank(c: char) {
    c == ' ' || '\t' <= c <= '\r'
  }

  function DigitsEnd(p: string, i: nat): (e: nat)
    requires i <= |p|
    ensures i <= e <= |p|
    decreases |p| - i
  {
    if i < |p| && IsDigit(p[i]) then DigitsEnd(p, i + 1) else i
  }

  function SkipBlanks(p: string, i: nat): (e: nat)
    requires i <= |p|
    ensures i <= e <= |p|
    decreases |p| - i
  {
    if i < |p| && IsBlank(p[i]) then SkipBlanks(p, i + 1) else i
  }

  function SkipSign(p: string, i: nat): (e: nat)
    requires i <= |p|
    ensures i <= e <= |p|
  {
    if i < |p| && (p[i] == '-' || p[i] == '+') then i + 1 else i
  }

  /** Optional sign and digits; none, or a magnitude above the limit, sets the stream's fail bit. */
  function ReadSigned(p: string, i: nat, limit: nat): (r: Option<Number>)
    requires i <= |p|
    ensures r.Some? ==> i < r.value.next <= |p| && 0 - limit <= r.value.value <= limit
  {
    var from := SkipSign(p, i);
    var end := DigitsEnd(p, from);
    var magnitude := NumberAt(p, from, end);
    if end == from || magnitude > limit then None
    else Some(Number(if p[i] == '-' then 0 - magnitude else magnitude, end))
  }

  /** The same into an unsigned 64-bit integer: a negative number wraps around. */
  function ReadUnsigned(p: string, i: nat): (r: Option<Number>)
    requires i <= |p|
    ensures r.Some? ==> i < r.value.next <= |p| && 0 <= r.value.value <= NPOS
  {
    match ReadSigned(p, SkipBlanks(p, i), NPOS)
    case None => None
    case Some(Number(v, next)) => Some(Number(v % (NPOS + 1), next))
  }

  // ---------------------------------------------------------------------------------------
  // Conversion specifiers
  // ---------------------------------------------------------------------------------------

  datatype Specifier = Specifier(minWidth: Option<int>, maxWidth: Option<nat>, ch: char, postfix: string, next: nat)

  /** Read a specifier whose '%' stands before position i. */
  function ReadSpecifier(p: string, i: nat): (r: Option<Specifier>)
    requires i <= |p|
    ensures r.Some? ==> i < r.value.next <= |p|
  {
    if i < |p| && (p[i] == '-' || IsDigit(p[i])) then
      match ReadSigned(p, i, INT_MAX)
      case None => None
      case Some(Number(min, j)) => ReadAfterMin(p, j, Some(min))
    else ReadAfterMin(p, i, None)
  }

  function ReadAfterMin(p: string, i: nat, min: Option<int>): (r: Option<Specifier>)
    requires i <= |p|
    ensures r.Some? ==> i < r.value.next <= |p|
  {
    if i < |p| && p[i] == '.' then
      match ReadUnsigned(p, i + 1)
      case None => None
      case Some(Number(max, j)) => ReadLetter(p, j, min, Some(max))
    else ReadLetter(p, i, min, None)
  }

  function ReadLetter(p: string, i: nat, min: Option<int>, max: Option<nat>): (r: Option<Specifier>)
    requires i <= |p|
    ensures r.Some? ==> i < r.value.next <= |p|
  {
    if i >= |p| then None
    else if i + 1 < |p| && p[i + 1] == '{' then
      match Find(p, '}', i + 2)
      case None => Some(Specifier(min, max, p[i], p[i + 2..], |p|))
      case Some(e) => Some(Specifier(min, max, p[i], p[i + 2..e], e + 1))
    else Some(Specifier(min, max, p[i], "", i + 1))
  }

  const ISO8601_FORMAT := "%Y-%m-%d %H:%M:%S,%l"
  const ABSOLUTE_FORMAT := "%H:%M:%S,%l"
  const DATE_FORMAT := "%d %b %Y %H:%M:%S,%l"

  function TimeFormat(postfix: string): string {
    if postfix == "" || postfix == "ISO8601" then ISO8601_FORMAT
    else if postfix == "ABSOLUTE" then ABSOLUTE_FORMAT
    else if postfix == "DATE" then DATE_FORMAT
    else postfix
  }

  /** An int read from the postfix. A failed read stores 0, or the nearest int if out of range. */
  function Precision(postfix: string): int {
    var i := SkipBlanks(postfix, 0);
    var from := SkipSign(postfix, i);
    var end := DigitsEnd(postfix, from);
    var magnitude := NumberAt(postfix, from, end);
    if postfix == "" then -1
    else if end == from then 0
    else if postfix[i] == '-' then (if magnitude > INT_MAX then 0 - INT_MAX - 1 else 0 - magnitude)
    else if magnitude > INT_MAX then INT_MAX
    else magnitude
  }

  /** The field a specifier letter names, if any. */
  function FieldOf(ch: char, postfix: string): Option<Field> {
    match ch
    case 'm' => Some(Message)
    case 'c' => Some(CategoryName(Precision(postfix)))
    case 'd' => Some(TimeStamp(TimeFormat(postfix)))
    case 'p' => Some(PriorityName)
    case 'r' => Some(Elapsed)
    case 'R' => Some(Seconds)
    case 't' => Some(ThreadName)
    case 'u' => Some(ProcessorTime)
    case 'x' => Some(Ndc)
    case _ => None
  }

  /** The text a non-field specifier stands for. */
  function LiteralOf(ch: char): Option<string> {
    if ch == '%' then Some("%") else if ch == 'n' then Some("\n") else None
  }

  // ---------------------------------------------------------------------------------------
  // Fields and widths
  // ---------------------------------------------------------------------------------------

  /** Subtracting 2 from an unsigned 64-bit position. */
  function Less2(position: nat): nat
    requires position <= NPOS
  {
    if position >= 2 then position - 2 else position + NPOS - 1
  }

  function RFind(s: string, c: char, position: nat): (r: Option<nat>)
    ensures r.Some? ==> r.value < |s|
  {
    FindLast(s, c, if position < |s| then position else |s| - 1)
  }

  /** Where the category component starts to print, by its own backward scan. */
  function ScanBack(name: string, steps: nat, begin: nat): (start: nat)
    requires |name| < NPOS && begin <= NPOS && (begin <= |name| || begin == NPOS)
    ensures start <= |name|
  {
    if steps == 0 then (if begin == NPOS then 0 else begin)
    else match RFind(name, '.', Less2(begin))
      case None => 0
      case Some(i) => ScanBack(name, steps - 1, i + 1)
  }

  /** What %c prints. A name longer than a 64-bit length cannot exist. */
  function CategoryText(name: string, precision: int): string {
    if precision == -1 || |name| >= NPOS then name
    else name[ScanBack(name, if precision < 0 then 0 else precision, NPOS)..]
  }

  function FieldText(field: Field, ev: LoggingEvent): string {
    match field
    case CategoryName(precision) => CategoryText(ev.categoryName, precision)
    case TimeStamp(format) => ev.time(format)
    case Message => ev.message
    case PriorityName => Priority.Name(ev.priority)
    case Elapsed => ev.elapsed
    case Seconds => ev.seconds
    case ThreadName => ev.threadName
    case ProcessorTime => ev.ticks
    case Ndc => ev.ndc
  }

  function Spaces(n: nat): (s: string)
    ensures |s| == n && forall c :: c in s ==> c == ' '
  {
    seq(n, _ => ' ')
  }

  /** Cut to the maximum width, then pad to the minimum. */
  function Fit(text: string, minWidth: nat, maxWidth: nat, alignLeft: bool): string {
    var cut := if maxWidth > 0 && maxWidth < |text| then text[..maxWidth] else text;
    if minWidth > |cut| then
      if alignLeft then cut + Spaces(minWidth - |cut|) else Spaces(minWidth - |cut|) + cut
    else cut
  }

  function ComponentText(c: Component, ev: LoggingEvent): string {
    match c
    case Literal(text) => text
    case Plain(field) => FieldText(field, ev)
    case Modified(field, min, max, left) => Fit(FieldText(field, ev), min, max, left)
  }

  function Render(cs: seq<Component>, ev: LoggingEvent): string {
    if cs == [] then "" else Render(cs[..|cs| - 1], ev) + ComponentText(cs[|cs| - 1], ev)
  }

  // ---------------------------------------------------------------------------------------
  // The interpreter
  // ---------------------------------------------------------------------------------------

  datatype Outcome = Outcome(text: string, error: Option<Error>)

  function Before(text: string, o: Outcome): Outcome {
    o.(text := text + o.text)
  }

  function Or<T>(o: Option<T>, default: T): T {
    match o case None => default case Some(v) => v
  }

  function Abs(n: int): nat {
    if n < 0 then -n else n
  }

  /** Read the pattern from position i with pending widths, printing the event on the way. A
      pending width waits for the next field; literals and %% and %n do not use it up. */
  function Interpret(p: string, i: nat, min: int, max: nat, ev: LoggingEvent): Outcome
    requires i <= |p|
    decreases |p| - i
  {
    if i == |p| then Outcome("", None)
    else if p[i] != '%' then Before([p[i]], Interpret(p, i + 1, min, max, ev))
    else match ReadSpecifier(p, i + 1)
      case None => Outcome("", Some(Unterminated))
      case Some(sp) =>
        var min', max' := Or(sp.minWidth, min), Or(sp.maxWidth, max);
        match (LiteralOf(sp.ch), FieldOf(sp.ch, sp.postfix))
        case (Some(text), _) => Before(text, Interpret(p, sp.next, min', max', ev))
        case (None, Some(field)) =>
          Before(Fit(FieldText(field, ev), Abs(min'), max', min' < 0), Interpret(p, sp.next, 0, 0, ev))
        case (None, None) => Outcome("", Some(UnknownSpecifier(sp.ch)))
  }

  // ---------------------------------------------------------------------------------------
  // The compiler
  // ---------------------------------------------------------------------------------------

  /** No component prints nothing by construction, and no two literals stand side by side. */
  predicate Compact(cs: seq<Component>) {
    && (forall c :: c in cs && c.Literal? ==> c.text != "")
    && (forall i :: 0 <= i < |cs| - 1 ==> !(cs[i].Literal? && cs[i + 1].Literal?))
  }

  ghost predicate EndsInLiteral(cs: seq<Component>) {
    cs != [] && cs[|cs| - 1].Literal?
  }

  /** What is compiled so far, the open literal, and the interpretation of the rest agree with
      the interpretation of the whole pattern on every event. */
  ghost predicate Agrees(p: string, i: nat, min: int, max: nat, cs: seq<Component>, literal: string)
    requires i <= |p|
  {
    forall ev :: Interpret(p, 0, 0, 0, ev) == Before(Render(cs, ev) + literal, Interpret(p, i, min, max, ev))
  }

  /** The open literal becomes a component before the next field does. */
  function Flush(cs: seq<Component>, literal: string): seq<Component> {
    if literal == "" then cs else cs + [Literal(literal)]
  }

  function FieldComponent(field: Field, min: int, max: nat): Component {
    if min != 0 || max != 0 then Modified(field, Abs(min), max, min < 0) else Plain(field)
  }

  lemma RenderExtended(cs: seq<Component>, c: Component, ev: LoggingEvent)
    ensures Render(cs + [c], ev) == Render(cs, ev) + ComponentText(c, ev)
  {
    assert (cs + [c])[..|cs|] == cs;
  }

  lemma RenderFlush(cs: seq<Component>, literal: string, ev: LoggingEvent)
    ensures Render(Flush(cs, literal), ev) == Render(cs, ev) + literal
  {
    if literal != "" {
      RenderExtended(cs, Literal(literal), ev);
    }
  }

  lemma BeforeBefore(a: string, b: string, o: Outcome)
    ensures Before(a, Before(b, o)) == Before(a + b, o)
  {
    assert a + (b + o.text) == a + b + o.text;
  }

  /** The compiler has consumed text that prints the same for every event. */
  lemma AgreesLiteral(p: string, i: nat, min: int, max: nat, cs: seq<Component>, literal: string,
                      text: string, next: nat, min': int, max': nat)
    requires i <= |p| && next <= |p| && Agrees(p, i, min, max, cs, literal)
    requires forall ev :: Interpret(p, i, min, max, ev) == Before(text, Interpret(p, next, min', max', ev))
    ensures Agrees(p, next, min', max', cs, literal + text)
  {
    forall ev
      ensures Interpret(p, 0, 0, 0, ev) == Before(Render(cs, ev) + (literal + text), Interpret(p, next, min', max', ev))
    {
      BeforeBefore(Render(cs, ev) + literal, text, Interpret(p, next, min', max', ev));
      assert Render(cs, ev) + literal + text == Render(cs, ev) + (literal + text);
    }
  }

  lemma FieldComponentText(field: Field, min: int, max: nat, ev: LoggingEvent)
    ensures ComponentText(FieldComponent(field, min, max), ev) == Fit(FieldText(field, ev), Abs(min), max, min < 0)
  {
  }

  lemma RenderField(cs: seq<Component>, literal: string, field: Field, min: int, max: nat, ev: LoggingEvent)
    ensures Render(Flush(cs, literal) + [FieldComponent(field, min, max)], ev)
         == Render(cs, ev) + literal + Fit(FieldText(field, ev), Abs(min), max, min < 0)
  {
    RenderFlush(cs, literal, ev);
    RenderExtended(Flush(cs, literal), FieldComponent(field, min, max), ev);
    FieldComponentText(field, min, max, ev);
  }

  /** The compiler has consumed a field. */
  lemma {:induction false} AgreesField(p: string, i: nat, min: int, max: nat, cs: seq<Component>, literal: string,
                    field: Field, next: nat, min': int, max': nat)
    requires i <= |p| && next <= |p| && Agrees(p, i, min, max, cs, literal)
    requires forall ev ::
      Interpret(p, i, min, max, ev)
        == Before(Fit(FieldText(field, ev), Abs(min'), max', min' < 0), Interpret(p, next, 0, 0, ev))
    ensures Agrees(p, next, 0, 0, Flush(cs, literal) + [FieldComponent(field, min', max')], "")
  {
    var done := Flush(cs, literal) + [FieldComponent(field, min', max')];
    forall ev ensures Interpret(p, 0, 0, 0, ev) == Before(Render(done, ev) + "", Interpret(p, next, 0, 0, ev)) {
      RenderField(cs, literal, field, min', max', ev);
      BeforeBefore(Render(cs, ev) + literal, Fit(FieldText(field, ev), Abs(min'), max', min' < 0),
                   Interpret(p, next, 0, 0, ev));
      assert Render(done, ev) + "" == Render(done, ev);
    }
  }

  lemma ReadsLiteral(p: string, i: nat, min: int, max: nat, cs: seq<Component>, literal: string, sp: Specifier)
    requires i < |p| && SpecifierAt(p, i, sp) && LiteralOf(sp.ch).Some? && Agrees(p, i, min, max, cs, literal)
    ensures Agrees(p, sp.next, Or(sp.minWidth, min), Or(sp.maxWidth, max), cs, literal + LiteralOf(sp.ch).value)
  {
    forall ev ensures Interpret(p, i, min, max, ev)
         == Before(LiteralOf(sp.ch).value, Interpret(p, sp.next, Or(sp.minWidth, min), Or(sp.maxWidth, max), ev)) {
      InterpretLiteral(p, i, min, max, sp, ev);
    }
    AgreesLiteral(p, i, min, max, cs, literal, LiteralOf(sp.ch).value,
                  sp.next, Or(sp.minWidth, min), Or(sp.maxWidth, max));
  }

  lemma ReadsField(p: string, i: nat, min: int, max: nat, cs: seq<Component>, literal: string,
                   sp: Specifier, field: Field)
    requires i < |p| && SpecifierAt(p, i, sp) && LiteralOf(sp.ch).None? && FieldOf(sp.ch, sp.postfix) == Some(field)
    requires Agrees(p, i, min, max, cs, literal)
    ensures Agrees(p, sp.next, 0, 0,
                   Flush(cs, literal) + [FieldComponent(field, Or(sp.minWidth, min), Or(sp.maxWidth, max))], "")
  {
    var min', max' := Or(sp.minWidth, min), Or(sp.maxWidth, max);
    forall ev ensures Interpret(p, i, min, max, ev)
         == Before(Fit(FieldText(field, ev), Abs(min'), max', min' < 0), Interpret(p, sp.next, 0, 0, ev)) {
      InterpretField(p, i, min, max, sp, field, ev);
    }
    AgreesField(p, i, min, max, cs, literal, field, sp.next, min', max');
  }

  lemma NothingCompiled(p: string)
    ensures Agrees(p, 0, 0, 0, [], "")
  {
    forall ev ensures Interpret(p, 0, 0, 0, ev) == Before(Render([], ev) + "", Interpret(p, 0, 0, 0, ev)) {
      assert "" + "" + Interpret(p, 0, 0, 0, ev).text == Interpret(p, 0, 0, 0, ev).text;
    }
  }

  const DEFAULT_CONVERSION_PATTERN := "%m%n"

  lemma DefaultText(ev: LoggingEvent)
    ensures Interpret("%m%n", 0, 0, 0, ev) == Outcome(ev.message + "\n", None)
  {
    var p := "%m%n";
    assert ReadSpecifier(p, 1) == Some(Specifier(None, None, 'm', "", 2));
    assert ReadSpecifier(p, 3) == Some(Specifier(None, None, 'n', "", 4));
    InterpretField(p, 0, 0, 0, Specifier(None, None, 'm', "", 2), Message, ev);
    InterpretLiteral(p, 2, 0, 0, Specifier(None, None, 'n', "", 4), ev);
    assert Interpret(p, 4, 0, 0, ev) == Outcome("", None);
  }

  lemma DefaultAccepted(cs: seq<Component>, error: Option<Error>)
    requires error.Some? ==> StopsAt(cs, DEFAULT_CONVERSION_PATTERN, error)
    ensures error.None?
  {
    DefaultText(LoggingEvent("", "", "", 0, "", "", "", "", (format: string) => ""));
  }

  /** On every event the components print what interpreting the pattern prints. */
  ghost predicate Implements(cs: seq<Component>, p: string) {
    forall ev :: Interpret(p, 0, 0, 0, ev) == Outcome(Render(cs, ev), None)
  }

  /** The pattern is rejected with this error whatever the event; the components print what the
      interpreter prints before the error, but for one open literal, the same for every event. */
  ghost predicate StopsAt(cs: seq<Component>, p: string, error: Option<Error>) {
    exists literal :: StopsBehind(cs, p, literal, error)
  }

  ghost predicate StopsBehind(cs: seq<Component>, p: string, literal: string, error: Option<Error>) {
    forall ev :: Interpret(p, 0, 0, 0, ev) == Outcome(Render(cs, ev) + literal, error)
  }

  /** One specifier of the pattern, read with the pending widths. */
  ghost predicate SpecifierAt(p: string, i: nat, sp: Specifier)
    requires i < |p|
  {
    p[i] == '%' && ReadSpecifier(p, i + 1) == Some(sp)
  }

  lemma InterpretLiteral(p: string, i: nat, min: int, max: nat, sp: Specifier, ev: LoggingEvent)
    requires i < |p| && SpecifierAt(p, i, sp) && LiteralOf(sp.ch).Some?
    ensures Interpret(p, i, min, max, ev)
         == Before(LiteralOf(sp.ch).value, Interpret(p, sp.next, Or(sp.minWidth, min), Or(sp.maxWidth, max), ev))
  {
  }

  lemma InterpretField(p: string, i: nat, min: int, max: nat, sp: Specifier, field: Field, ev: LoggingEvent)
    requires i < |p| && SpecifierAt(p, i, sp) && LiteralOf(sp.ch).None? && FieldOf(sp.ch, sp.postfix) == Some(field)
    ensures Interpret(p, i, min, max, ev)
         == Before(Fit(FieldText(field, ev), Abs(Or(sp.minWidth, min)), Or(sp.maxWidth, max), Or(sp.minWidth, min) < 0),
                   Interpret(p, sp.next, 0, 0, ev))
  {
  }

  /** Interpretation breaks off with an error at position i. */
  ghost predicate BreaksAt(p: string, i: nat, min: int, max: nat, error: Error)
    requires i <= |p|
  {
    forall ev :: Interpret(p, i, min, max, ev) == Outcome("", Some(error))
  }

  lemma AgreesUntilError(p: string, i: nat, min: int, max: nat, cs: seq<Component>, literal: string, error: Error)
    requires i <= |p| && Agrees(p, i, min, max, cs, literal) && BreaksAt(p, i, min, max, error)
    ensures StopsAt(cs, p, Some(error))
  {
    forall ev ensures Interpret(p, 0, 0, 0, ev) == Outcome(Render(cs, ev) + literal, Some(error)) {
      assert Interpret(p, 0, 0, 0, ev) == Before(Render(cs, ev) + literal, Outcome("", Some(error)));
      assert Render(cs, ev) + literal + "" == Render(cs, ev) + literal;
    }
    assert StopsBehind(cs, p, literal, Some(error));
  }

  class PatternLayout {
    var components: seq<Component>
    var conversionPattern: string

    /** A new layout has the pattern "%m%n". */
    constructor ()
      ensures conversionPattern == DEFAULT_CONVERSION_PATTERN
      ensures Implements(components, DEFAULT_CONVERSION_PATTERN) && Compact(components)
    {
      components, conversionPattern := [], "";
      new;
      var error := SetConversionPattern(DEFAULT_CONVERSION_PATTERN);
      DefaultAccepted(components, error);
    }

    /** Compile a pattern. A rejected pattern leaves the components compiled before the error and
        no conversion pattern. */
    method SetConversionPattern(pattern: string) returns (error: Option<Error>)
      modifies this
      ensures Compact(components)
      ensures error.None? ==> conversionPattern == pattern && Implements(components, pattern)
      ensures error.Some? ==> conversionPattern == "" && StopsAt(components, pattern, error)
    {
      components, conversionPattern := [], "";
      var literal := "";
      var minWidth: int, maxWidth: nat := 0, 0;
      var position: nat := 0;
      NothingCompiled(pattern);
      while position < |pattern|
        invariant position <= |pattern| && conversionPattern == ""
        invariant Compact(components) && !EndsInLiteral(components)
        invariant Agrees(pattern, position, minWidth, maxWidth, components, literal)
        decreases |pattern| - position
      {
        if pattern[position] == '%' {
          error, literal, minWidth, maxWidth, position :=
            ReadConversion(pattern, position, literal, minWidth, maxWidth);
          if error.Some? {
            return;
          }
        } else {
          AgreesLiteral(pattern, position, minWidth, maxWidth, components, literal,
                        [pattern[position]], position + 1, minWidth, maxWidth);
          literal := literal + [pattern[position]];
          position := position + 1;
        }
      }
      AllFlushed(pattern, minWidth, maxWidth, components, literal);
      if literal != "" {
        components := components + [Literal(literal)];
      }
      conversionPattern := pattern;
      return None;
    }

    /** The part of the loop that handles a '%'. */
    method ReadConversion(pattern: string, position: nat, literal: string, minWidth: int, maxWidth: nat)
        returns (error: Option<Error>, literal': string, minWidth': int, maxWidth': nat, next: nat)
      requires position < |pattern| && pattern[position] == '%'
      requires Compact(components) && !EndsInLiteral(components)
      requires Agrees(pattern, position, minWidth, maxWidth, components, literal)
      modifies this`components
      ensures position <= next <= |pattern| && Compact(components)
      ensures error.None? ==> position < next && !EndsInLiteral(components)
      ensures error.None? ==> Agrees(pattern, next, minWidth', maxWidth', components, literal')
      ensures error.Some? ==> StopsAt(components, pattern, error)
    {
      literal', next := literal, position;
      var specifier := ReadSpecifier(pattern, position + 1);
      if specifier.None? {
        AgreesUntilError(pattern, position, minWidth, maxWidth, components, literal, Unterminated);
        return Some(Unterminated), literal, minWidth, maxWidth, position;
      }
      var sp := specifier.value;
      minWidth', maxWidth', next := Or(sp.minWidth, minWidth), Or(sp.maxWidth, maxWidth), sp.next;
      var text := LiteralOf(sp.ch);
      if text.Some? {
        ReadsLiteral(pattern, position, minWidth, maxWidth, components, literal, sp);
        return None, literal + text.value, minWidth', maxWidth', next;
      }
      var field := FieldOf(sp.ch, sp.postfix);
      if field.None? {
        AgreesUntilError(pattern, position, minWidth, maxWidth, components, literal, UnknownSpecifier(sp.ch));
        return Some(UnknownSpecifier(sp.ch)), literal, minWidth, maxWidth, position;
      }
      ReadsField(pattern, position, minWidth, maxWidth, components, literal, sp, field.value);
      PushField(literal, field.value, minWidth', maxWidth');
      return None, "", 0, 0, next;
    }

    /** Close the open literal and add a field, wrapped if a width is pending. */
    method PushField(literal: string, field: Field, minWidth: int, maxWidth: nat)
      requires Compact(components) && !EndsInLiteral(components)
      modifies this`components
      ensures components == Flush(old(components), literal) + [FieldComponent(field, minWidth, maxWidth)]
      ensures Compact(components) && !EndsInLiteral(components)
    {
      if literal != "" {
        components := components + [Literal(literal)];
      }
      if minWidth != 0 || maxWidth != 0 {
        components := components + [Modified(field, Abs(minWidth), maxWidth, minWidth < 0)];
      } else {
        components := components + [Plain(field)];
      }
    }

    /** Print an event with the compiled components. */
    method Format(ev: LoggingEvent) returns (message: string)
      ensures message == Render(components, ev)
    {
      message := "";
      for i := 0 to |components|
        invariant message == Render(components[..i], ev)
      {
        assert components[..i + 1][..i] == components[..i];
        message := message + ComponentText(components[i], ev);
      }
      assert components[..|components|] == components;
    }
  }

  lemma AllFlushed(p: string, min: int, max: nat, cs: seq<Component>, literal: string)
    requires Agrees(p, |p|, min, max, cs, literal)
    ensures forall ev :: Interpret(p, 0, 0, 0, ev) == Outcome(Render(Flush(cs, literal), ev), None)
  {
    forall ev ensures Interpret(p, 0, 0, 0, ev) == Outcome(Render(Flush(cs, literal), ev), None) {
      RenderFlush(cs, literal, ev);
      assert Render(cs, ev) + literal + "" == Render(cs, ev) + literal;
    }
  }
}
