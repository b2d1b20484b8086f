/** What the pieces of a conversion specifier mean: %c{n} prints trailing segments of the category
    name, widths cut and pad, and a specifier's text reads back as itself. */
module PatternFields {
  import opened Options
  import opened StringUtil
  import opened Decimal
  import opened PatternLayout

  // ---------------------------------------------------------------------------------------
  // %c{n}
  // ---------------------------------------------------------------------------------------

  /** The category component's own loop. */
  method AppendCategoryName(name: string, precision: int) returns (out: string)
    requires |name| < NPOS
    ensures out == CategoryText(name, precision)
  {
    if precision == -1 {
      return name;
    }
    var begin: nat := NPOS;
    var i := 0;
    while i < precision
      invariant begin == NPOS || begin <= |name|
      invariant 0 <= i && (i <= precision || i == 0)
      invariant Resumes(name, if precision < 0 then 0 else precision, Steps(precision, i), begin)
    {
      ghost var steps := Steps(precision, i);
      var dot := RFind(name, '.', Less2(begin));
      if dot.None? {
        begin := 0;
        break;
      }
      begin := dot.value + 1;
      i := i + 1;
      assert Steps(precision, i) == steps - 1;
    }
    if begin == NPOS {
      begin := 0;
    }
    out := name[begin..];
  }

  function Steps(precision: int, i: nat): nat {
    if i < precision then precision - i else 0
  }

  /** Scanning on from here ends where the whole scan ends. */
  ghost predicate Resumes(name: string, all: nat, steps: nat, begin: nat)
    requires |name| < NPOS && (begin == NPOS || begin <= |name|)
  {
    ScanBack(name, steps, begin) == ScanBack(name, all, NPOS)
  }

  /** The last n segments of a dotted name, or all if there are fewer. */
  function LastSegments(name: string, n: nat): string {
    Join(Last(Segments(name, '.', 0), n), '.')
  }

  function Last<T>(v: seq<T>, n: nat): seq<T> {
    if n < |v| then v[|v| - n..] else v
  }

  /** Where the last n >= 1 segments of a name's first `end` characters begin. */
  function SegmentStart(name: string, end: nat, n: nat): (start: nat)
    requires n >= 1 && end <= |name|
    ensures start <= end
    decreases end
  {
    match FindLast(name, '.', end as int - 1)
    case None => 0
    case Some(i) => if n == 1 then i + 1 else SegmentStart(name, i, n - 1)
  }

  /** The first i characters of s, said by index. */
  ghost predicate Prefix(t: string, s: string, i: nat) {
    |t| == i <= |s| && forall k :: 0 <= k < i ==> t[k] == s[k]
  }

  lemma {:induction false} FindPrefix(s: string, t: string, end: nat, from: nat)
    requires Prefix(t, s, end) && from <= end
    ensures Find(t, '.', from)
         == match Find(s, '.', from) case None => None case Some(i) => if i < end then Some(i) else None
    decreases end - from
  {
    if from >= end {
    } else {
      FindPrefix(s, t, end, from + 1);
    }
  }

  lemma SlicePrefix(s: string, t: string, end: nat, from: nat, to: nat)
    requires Prefix(t, s, end) && from <= to <= end
    ensures t[from..to] == s[from..to]
  {
  }

  lemma SnocStep(s: string, t: string, from: nat, dot: nat, y: string)
    requires from <= dot < |t| && dot < |s| && s[from..dot] == t[from..dot]
    requires Find(s, '.', from) == Some(dot) == Find(t, '.', from)
    requires Segments(s, '.', dot + 1) == Segments(t, '.', dot + 1) + [y]
    ensures Segments(s, '.', from) == Segments(t, '.', from) + [y]
  {
  }

  lemma SnocLast(s: string, t: string, i: nat, from: nat)
    requires Prefix(t, s, i) && from <= i < |s| && Find(s, '.', from) == Some(i)
    requires forall k :: i < k < |s| ==> s[k] != '.'
    ensures Segments(s, '.', from) == Segments(t, '.', from) + [s[i + 1..]]
  {
    FindPrefix(s, t, i, from);
    SlicePrefix(s, t, i, from, i);
    assert t[from..] == t[from..i];
  }

  /** Cutting a name at its last dot cuts off its last segment. */
  lemma {:induction false} SegmentsSnoc(s: string, t: string, i: nat, from: nat)
    requires Prefix(t, s, i) && from <= i < |s| && s[i] == '.' && forall k :: i < k < |s| ==> s[k] != '.'
    ensures Segments(s, '.', from) == Segments(t, '.', from) + [s[i + 1..]]
    decreases i - from
  {
    FindLaw(s, '.', from);
    var dot := Find(s, '.', from).value;
    if dot == i {
      SnocLast(s, t, i, from);
    } else {
      FindPrefix(s, t, i, from);
      SegmentsSnoc(s, t, i, dot + 1);
      SlicePrefix(s, t, i, from, dot);
      SnocStep(s, t, from, dot, s[i + 1..]);
    }
  }

  lemma {:induction false} JoinSnoc(v: seq<string>, x: string)
    requires v != []
    ensures Join(v + [x], '.') == Join(v, '.') + "." + x
  {
    if |v| > 1 {
      assert (v + [x])[1..] == v[1..] + [x];
      JoinSnoc(v[1..], x);
      Regroup(v[0] + ['.'], Join(v[1..], '.'), "." + x);
    } else {
      assert (v + [x])[1..] == [x];
    }
  }

  lemma Regroup(a: string, b: string, c: string)
    ensures a + (b + c) == a + b + c
  {
  }

  lemma LastSnoc<T>(v: seq<T>, x: T, n: nat)
    requires v != [] && n >= 1
    ensures Last(v + [x], n) == if n == 1 then [x] else Last(v, n - 1) + [x]
  {
  }

  lemma LastOf(v: seq<string>, x: string, n: nat)
    requires v != [] && n >= 1
    ensures Join(Last(v + [x], n), '.') == if n == 1 then x else Join(Last(v, n - 1), '.') + "." + x
  {
    LastSnoc(v, x, n);
    if n > 1 {
      JoinSnoc(Last(v, n - 1), x);
    }
  }

  lemma LastOfSegments(s: string, t: string, x: string, n: nat)
    requires n >= 1 && Segments(s, '.', 0) == Segments(t, '.', 0) + [x]
    ensures LastSegments(s, n) == if n == 1 then x else LastSegments(t, n - 1) + "." + x
  {
    LastOf(Segments(t, '.', 0), x, n);
  }

  lemma LastSegmentsSnoc(s: string, i: nat, n: nat)
    requires i < |s| && FindLast(s, '.', |s| - 1) == Some(i) && n >= 1
    ensures LastSegments(s, n) == if n == 1 then s[i + 1..] else LastSegments(s[..i], n - 1) + "." + s[i + 1..]
  {
    FindLastLaw(s, '.', |s| - 1);
    SegmentsSnoc(s, s[..i], i, 0);
    LastOfSegments(s, s[..i], s[i + 1..], n);
  }

  lemma {:induction false} FindLastPrefix(s: string, end: nat, j: int)
    requires j < end <= |s|
    ensures FindLast(s[..end], '.', j) == FindLast(s, '.', j)
    decreases j + 1
  {
    if j < 0 {
    } else {
      FindLastPrefix(s, end, j - 1);
    }
  }

  lemma WholeSegment(s: string, n: nat)
    requires FindLast(s, '.', |s| - 1).None? && n >= 1
    ensures LastSegments(s, n) == s
  {
    FindLastLaw(s, '.', |s| - 1);
    assert s[0..] == s;
  }

  lemma SliceOfPrefix(s: string, end: nat, i: nat)
    requires i < end <= |s|
    ensures s[..end][..i] == s[..i] && s[..end][i + 1..] == s[i + 1..end]
  {
  }

  /** The segments a name ends with are what stands behind their start. */
  lemma {:induction false} SegmentStartLaw(name: string, end: nat, n: nat)
    requires n >= 1 && end <= |name|
    ensures name[SegmentStart(name, end, n)..end] == LastSegments(name[..end], n)
    decreases end
  {
    hide LastSegments, FindLast;
    var s := name[..end];
    FindLastPrefix(name, end, end as int - 1);
    var dot := FindLast(name, '.', end as int - 1);
    if dot.None? {
      WholeSegment(s, n);
      assert name[0..end] == s;
    } else {
      var i := dot.value;
      LastSegmentsSnoc(s, i, n);
      SliceOfPrefix(name, end, i);
      if n > 1 {
        SegmentStartLaw(name, i, n - 1);
      }
    }
  }

  lemma FirstScan(name: string, steps: nat)
    requires |name| < NPOS && steps >= 1
    ensures ScanBack(name, steps, NPOS) ==
      match FindLast(name, '.', |name| - 1)
      case None => 0
      case Some(i) => ScanBack(name, steps - 1, i + 1)
  {
    assert Less2(NPOS) == NPOS - 2;
  }

  /** On a name that begins with a dot, no scan ever stops before it. */
  lemma {:induction false} LeadingDotSkipped(name: string, steps: nat, i: nat)
    requires 0 <= i < |name| < NPOS && name[0] == '.'
    ensures ScanBack(name, steps, i + 1) >= 1
    decreases steps
  {
    if steps == 0 {
    } else {
      hide ScanBack;
      var last := if i == 0 then |name| - 1 else i - 1;
      FindLastLaw(name, '.', last);
      LeadingDotSkipped(name, steps - 1, FindLast(name, '.', last).value);
    }
  }

  /** The number of dots among the first `end` characters. */
  function Dots(name: string, end: nat): nat
    requires end <= |name|
  {
    if end == 0 then 0 else Dots(name, end - 1) + if name[end - 1] == '.' then 1 else 0
  }

  lemma {:induction false} DotsAt(name: string, end: nat)
    requires end <= |name|
    ensures Dots(name, end)
         == match FindLast(name, '.', end as int - 1) case None => 0 case Some(i) => Dots(name, i) + 1
  {
    if end == 0 {
    } else {
      DotsAt(name, end - 1);
    }
  }

  lemma {:induction false} ScanBackPrefix(name: string, steps: nat, i: nat)
    requires i < |name| < NPOS && name[i] == '.' && steps >= 1
    requires name[0] == '.' ==> steps <= Dots(name, i)
    ensures ScanBack(name, steps, i + 1) == SegmentStart(name, i, steps)
    decreases steps
  {
    if i == 0 {
    } else {
      FindLastLaw(name, '.', i - 1);
      DotsAt(name, i);
      var dot := FindLast(name, '.', i - 1);
      if dot.Some? && steps > 1 {
        ScanBackPrefix(name, steps - 1, dot.value);
      }
    }
  }

  lemma ScanFinds(name: string, n: nat)
    requires n >= 1 && |name| < NPOS
    requires !(name != "" && name[0] == '.' && n > Dots(name, |name|))
    ensures ScanBack(name, n, NPOS) == SegmentStart(name, |name|, n)
  {
    FirstScan(name, n);
    DotsAt(name, |name|);
    var dot := FindLast(name, '.', |name| - 1);
    if dot.Some? && n > 1 {
      ScanBackPrefix(name, n - 1, dot.value);
    }
  }

  lemma ScanMisses(name: string, n: nat)
    requires n >= 1 && |name| < NPOS
    requires name != "" && name[0] == '.' && n > Dots(name, |name|)
    ensures ScanBack(name, n, NPOS) >= 1 && LastSegments(name, n) == name
  {
    hide ScanBack, LastSegments, Dots;
    FirstScan(name, n);
    FindLastLaw(name, '.', |name| - 1);
    LeadingDotSkipped(name, n - 1, FindLast(name, '.', |name| - 1).value);
    WholeName(name, n);
  }

  /** %c{n} prints the last n segments of the category name, exactly unless the name begins with a
      dot and more segments are asked for than it has dots: then the scan wraps around and starts
      over from the end of the name. */
  lemma CategoryTextIsLastSegments(name: string, n: nat)
    requires 1 <= n <= INT_MAX && |name| < NPOS
    ensures CategoryText(name, n) == LastSegments(name, n)
      <==> !(name != "" && name[0] == '.' && n > Dots(name, |name|))
  {
    if name != "" && name[0] == '.' && n > Dots(name, |name|) {
      ScanMisses(name, n);
    } else {
      ScanFinds(name, n);
      SegmentStartLaw(name, |name|, n);
      assert name[..|name|] == name;
      assert name[SegmentStart(name, |name|, n)..|name|] == name[SegmentStart(name, |name|, n)..];
    }
  }

  lemma {:induction false} DotsCount(name: string, from: nat)
    requires from <= |name|
    ensures Dots(name, from) + Occurrences(name, '.', from) == Dots(name, |name|)
    decreases |name| - from
  {
    if from >= |name| {
    } else {
      DotsCount(name, from + 1);
    }
  }

  lemma WholeName(name: string, n: nat)
    requires n > Dots(name, |name|)
    ensures LastSegments(name, n) == name
  {
    DotsCount(name, 0);
    SplitUnlimited(name, '.', 0, n);
    SplitLossless(name, '.', 0, n);
    SplitCount(name, '.', 0, n);
    assert name[0..] == name;
  }

  /** The two readings differ, for instance on ".a" with two segments: only "a" is printed. */
  lemma LeadingDotWraps(name: string, n: nat)
    requires name == ".a" && n == 2
    ensures CategoryText(name, n) == "a" && LastSegments(name, n) == name
  {
    assert FindLast(name, '.', 0) == Some(0);
    assert Dots(name, 1) == 1;
    FirstScan(name, n);
    WholeName(name, n);
  }

  // ---------------------------------------------------------------------------------------
  // Widths
  // ---------------------------------------------------------------------------------------

  /** A field is cut to the maximum width, where 0 means none, and then padded with spaces to the
      minimum width on the side away from the alignment: the text itself is never split. */
  lemma FitLaw(text: string, minWidth: nat, maxWidth: nat, alignLeft: bool)
    ensures var out, shown := Fit(text, minWidth, maxWidth, alignLeft),
                              if maxWidth == 0 || |text| <= maxWidth then |text| else maxWidth;
      && |out| == (if shown < minWidth then minWidth else shown)
      && (forall i :: 0 <= i < |out| ==>
            out[i] == var j := if alignLeft then i else i - (|out| - shown);
                      if 0 <= j < shown then text[j] else ' ')
  {
  }

  // ---------------------------------------------------------------------------------------
  // The text of a specifier
  // ---------------------------------------------------------------------------------------

  /** The text of a conversion specifier without its '%', in parts: a minus sign and the digits of
      the minimum width, the digits of the maximum width, a letter, a postfix. No digits: no
      minimum width. */
  datatype Conversion = Conversion(left: bool, min: string, max: Option<string>, ch: char, postfix: Option<string>)

  function Sign(left: bool): string {
    if left then "-" else ""
  }

  function MaxText(c: Conversion): string {
    match c.max case None => "" case Some(ds) => "." + ds
  }

  function PostfixText(c: Conversion): string {
    match c.postfix case None => "" case Some(s) => "{" + s + "}"
  }

  function Text(c: Conversion): string {
    Sign(c.left) + (c.min + (MaxText(c) + ([c.ch] + PostfixText(c))))
  }

  function Magnitude(ds: string): nat {
    NumberAt(ds, 0, |ds|)
  }

  function MinValue(c: Conversion): Option<int> {
    if c.min == "" then None else Some(if c.left then 0 - Magnitude(c.min) else Magnitude(c.min))
  }

  function MaxValue(c: Conversion): Option<nat> {
    match c.max case None => None case Some(ds) => Some(Magnitude(ds))
  }

  predicate IsNumber(ds: string, limit: nat) {
    ds != "" && AllDigits(ds) && Magnitude(ds) <= limit
  }

  /** Widths in the range the streams read, a letter that cannot be taken for a width, and a
      postfix that ends where its brace closes. */
  predicate Writable(c: Conversion) {
    && !IsDigit(c.ch) && c.ch != '-' && c.ch != '.'
    && (if c.min == "" then !c.left else IsNumber(c.min, INT_MAX))
    && (c.max.Some? ==> IsNumber(c.max.value, NPOS))
    && (c.postfix.Some? ==> '}' !in c.postfix.value)
  }

  ghost predicate StandsAt(p: string, i: nat, s: string) {
    i + |s| <= |p| && forall k :: 0 <= k < |s| ==> p[i + k] == s[k]
  }

  lemma StandsSplit(p: string, i: nat, a: string, b: string)
    requires StandsAt(p, i, a + b)
    ensures StandsAt(p, i, a) && StandsAt(p, i + |a|, b)
  {
    forall k | 0 <= k < |b| ensures p[i + |a| + k] == b[k] {
      assert (a + b)[|a| + k] == b[k];
    }
    forall k | 0 <= k < |a| ensures p[i + k] == a[k] {
      assert (a + b)[k] == a[k];
    }
  }

  lemma FirstAt(p: string, i: nat, s: string)
    requires s != "" && StandsAt(p, i, s)
    ensures i < |p| && p[i] == s[0]
  {
    assert p[i + 0] == s[0];
  }

  lemma {:induction false} DigitsEndAt(p: string, i: nat, e: nat)
    requires i <= e <= |p| && (forall k :: i <= k < e ==> IsDigit(p[k])) && (e < |p| ==> !IsDigit(p[e]))
    ensures DigitsEnd(p, i) == e
    decreases e - i
  {
    if i >= e {
    } else {
      DigitsEndAt(p, i + 1, e);
    }
  }

  /** A run of digits in the text reads as its number. */
  lemma ReadDigits(p: string, i: nat, ds: string)
    requires ds != "" && AllDigits(ds) && StandsAt(p, i, ds)
    requires i + |ds| < |p| ==> !IsDigit(p[i + |ds|])
    ensures DigitsEnd(p, i) == i + |ds| && NumberAt(p, i, i + |ds|) == Magnitude(ds) && IsDigit(p[i])
  {
    var e := i + |ds|;
    forall k | i <= k < e ensures IsDigit(p[k]) {
      assert p[i + (k - i)] == ds[k - i];
    }
    DigitsEndAt(p, i, e);
    NumberSame(p, i, ds, |ds|);
  }

  lemma ReadPositive(p: string, i: nat, ds: string, limit: nat)
    requires IsNumber(ds, limit) && StandsAt(p, i, ds)
    requires i + |ds| < |p| ==> !IsDigit(p[i + |ds|])
    ensures ReadSigned(p, i, limit) == Some(Number(Magnitude(ds), i + |ds|)) && IsDigit(p[i])
  {
    ReadDigits(p, i, ds);
  }

  lemma ReadNegative(p: string, i: nat, ds: string, limit: nat)
    requires IsNumber(ds, limit) && i < |p| && p[i] == '-' && StandsAt(p, i + 1, ds)
    requires i + 1 + |ds| < |p| ==> !IsDigit(p[i + 1 + |ds|])
    ensures ReadSigned(p, i, limit) == Some(Number(0 - Magnitude(ds), i + 1 + |ds|))
  {
    ReadDigits(p, i + 1, ds);
  }

  lemma ReadLetterText(p: string, k: nat, e: nat, c: Conversion)
    requires Writable(c) && StandsAt(p, k, [c.ch]) && StandsAt(p, k + 1, PostfixText(c))
    requires e == k + 1 + |PostfixText(c)|
    requires c.postfix.None? ==> e == |p| || p[e] != '{'
    ensures p[k] == c.ch && ReadLetter(p, k, MinValue(c), MaxValue(c))
         == Some(Specifier(MinValue(c), MaxValue(c), c.ch, Or(c.postfix, ""), e))
  {
    FirstAt(p, k, [c.ch]);
    if c.postfix.Some? {
      ReadPostfix(p, k + 1, c.postfix.value);
    }
  }

  lemma StandsBefore(p: string, i: nat, s: string, c: char)
    requires StandsAt(p, i, s) && c !in s && i + |s| < |p| && p[i + |s|] == c
    ensures Find(p, c, i) == Some(i + |s|)
  {
    forall k | i <= k < i + |s| ensures p[k] != c {
      assert p[i + (k - i)] == s[k - i];
    }
    FindIs(p, c, i, i + |s|);
  }

  lemma ReadPostfix(p: string, i: nat, s: string)
    requires StandsAt(p, i, "{" + s + "}") && '}' !in s
    ensures p[i] == '{' && Find(p, '}', i + 1) == Some(i + 1 + |s|) && p[i + 1..i + 1 + |s|] == s
  {
    StandsSplit(p, i, "{" + s, "}");
    StandsSplit(p, i, "{", s);
    FirstAt(p, i, "{");
    FirstAt(p, i + 1 + |s|, "}");
    StandsBefore(p, i + 1, s, '}');
  }

  lemma ReadMaxNumber(p: string, i: nat, ds: string)
    requires StandsAt(p, i, "." + ds) && IsNumber(ds, NPOS)
    requires i + 1 + |ds| < |p| ==> !IsDigit(p[i + 1 + |ds|])
    ensures p[i] == '.' && ReadUnsigned(p, i + 1) == Some(Number(Magnitude(ds), i + 1 + |ds|))
  {
    StandsSplit(p, i, ".", ds);
    FirstAt(p, i, ".");
    ReadPositive(p, i + 1, ds, NPOS);
  }

  /** The parts of a specifier's text stand one after the other: the sign at i, the minimum width
      from h, the maximum width from j, the letter at k, and the end is e. */
  ghost predicate Laid(p: string, i: nat, h: nat, j: nat, k: nat, e: nat, c: Conversion) {
    && StandsAt(p, i, Sign(c.left)) && h == i + |Sign(c.left)|
    && StandsAt(p, h, c.min) && j == h + |c.min|
    && StandsAt(p, j, MaxText(c)) && k == j + |MaxText(c)|
    && StandsAt(p, k, [c.ch]) && StandsAt(p, k + 1, PostfixText(c)) && e == k + 1 + |PostfixText(c)|
  }

  lemma StandsApart(p: string, i: nat, a: string, b: string, c: string, d: string, e: string)
    requires StandsAt(p, i, a + (b + (c + (d + e))))
    ensures StandsAt(p, i, a) && StandsAt(p, i + |a|, b) && StandsAt(p, i + |a| + |b|, c)
    ensures StandsAt(p, i + |a| + |b| + |c|, d) && StandsAt(p, i + |a| + |b| + |c| + |d|, e)
  {
    StandsSplit(p, i, a, b + (c + (d + e)));
    StandsSplit(p, i + |a|, b, c + (d + e));
    StandsSplit(p, i + |a| + |b|, c, d + e);
    StandsSplit(p, i + |a| + |b| + |c|, d, e);
  }

  lemma LayText(p: string, i: nat, c: Conversion) returns (h: nat, j: nat, k: nat, e: nat)
    requires StandsAt(p, i, Text(c))
    ensures Laid(p, i, h, j, k, e, c) && e == i + |Text(c)|
  {
    StandsApart(p, i, Sign(c.left), c.min, MaxText(c), [c.ch], PostfixText(c));
    h := i + |Sign(c.left)|;
    j := h + |c.min|;
    k := j + |MaxText(c)|;
    e := k + 1 + |PostfixText(c)|;
  }

  lemma ReadMaxText(p: string, i: nat, h: nat, j: nat, k: nat, e: nat, c: Conversion)
    requires Writable(c) && Laid(p, i, h, j, k, e, c)
    requires c.postfix.None? ==> e == |p| || p[e] != '{'
    ensures ReadAfterMin(p, j, MinValue(c))
         == Some(Specifier(MinValue(c), MaxValue(c), c.ch, Or(c.postfix, ""), e))
  {
    hide ReadLetter, ReadUnsigned, IsNumber;
    ReadLetterText(p, k, e, c);
    if c.max.Some? {
      ReadMaxNumber(p, j, c.max.value);
    }
  }

  lemma AfterMin(p: string, i: nat, h: nat, j: nat, k: nat, e: nat, c: Conversion)
    requires Writable(c) && Laid(p, i, h, j, k, e, c)
    ensures j < |p| && p[j] != '-' && !IsDigit(p[j])
  {
    if c.max.Some? {
      FirstAt(p, j, MaxText(c));
    } else {
      FirstAt(p, k, [c.ch]);
    }
  }

  lemma ReadMinLeft(p: string, i: nat, ds: string)
    requires IsNumber(ds, INT_MAX) && i < |p| && p[i] == '-' && StandsAt(p, i + 1, ds)
    requires i + 1 + |ds| < |p| ==> !IsDigit(p[i + 1 + |ds|])
    ensures ReadSpecifier(p, i) == ReadAfterMin(p, i + 1 + |ds|, Some(0 - Magnitude(ds)))
  {
    ReadNegative(p, i, ds, INT_MAX);
    hide ReadSigned, ReadAfterMin;
  }

  lemma ReadMinRight(p: string, i: nat, ds: string)
    requires IsNumber(ds, INT_MAX) && StandsAt(p, i, ds)
    requires i + |ds| < |p| ==> !IsDigit(p[i + |ds|])
    ensures ReadSpecifier(p, i) == ReadAfterMin(p, i + |ds|, Some(Magnitude(ds)))
  {
    ReadPositive(p, i, ds, INT_MAX);
    hide ReadSigned, ReadAfterMin;
  }

  lemma ReadNoMin(p: string, i: nat)
    requires i < |p| && p[i] != '-' && !IsDigit(p[i])
    ensures ReadSpecifier(p, i) == ReadAfterMin(p, i, None)
  {
    hide ReadAfterMin;
  }

  lemma ReadMinText(p: string, i: nat, h: nat, j: nat, k: nat, e: nat, c: Conversion)
    requires Writable(c) && Laid(p, i, h, j, k, e, c)
    ensures ReadSpecifier(p, i) == ReadAfterMin(p, j, MinValue(c))
  {
    hide ReadSpecifier, ReadAfterMin, IsNumber;
    AfterMin(p, i, h, j, k, e, c);
    if c.left {
      FirstAt(p, i, "-");
      ReadMinLeft(p, i, c.min);
    } else if c.min != "" {
      ReadMinRight(p, i, c.min);
    } else {
      ReadNoMin(p, i);
    }
  }

  /** The text of a specifier reads as the widths, letter and postfix it is made of, wherever it
      stands and whatever follows, except that an opening brace behind a specifier without postfix
      becomes its postfix. */
  lemma ReadsBack(p: string, i: nat, c: Conversion)
    requires Writable(c) && StandsAt(p, i, Text(c))
    requires c.postfix.None? ==> i + |Text(c)| == |p| || p[i + |Text(c)|] != '{'
    ensures ReadSpecifier(p, i)
         == Some(Specifier(MinValue(c), MaxValue(c), c.ch, Or(c.postfix, ""), i + |Text(c)|))
  {
    hide *;
    var h, j, k, e := LayText(p, i, c);
    ReadMinText(p, i, h, j, k, e, c);
    ReadMaxText(p, i, h, j, k, e, c);
  }
}
