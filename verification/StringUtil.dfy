/** The string helpers: searching, trimming and splitting. */
module StringUtil {
  import opened Options

  /** The first index from `from` on at which c stands. */
  function Find(s: string, c: char, from: nat): (r: Option<nat>)
    ensures r.Some? ==> from <= r.value < |s| && s[r.value] == c
    decreases |s| - from
  {
    if from >= |s| then None else if s[from] == c then Some(from) else Find(s, c, from + 1)
  }

  /** The last index up to and including `from` at which c stands. */
  function FindLast(s: string, c: char, from: int): (r: Option<nat>)
    requires from < |s|
    ensures r.Some? ==> r.value <= from && s[r.value] == c
    decreases from + 1
  {
    if from < 0 then None else if s[from] == c then Some(from) else FindLast(s, c, from - 1)
  }

  /** Nothing before the index found. */
  lemma {:induction false} FindLaw(s: string, c: char, from: nat)
    ensures var r := Find(s, c, from);
      forall i :: from <= i < (if r.Some? then r.value else |s|) ==> s[i] != c
    decreases |s| - from
  {
    if from >= |s| {
    } else {
      FindLaw(s, c, from + 1);
    }
  }

  lemma {:induction false} FindIs(s: string, c: char, from: nat, i: nat)
    requires from <= i < |s| && s[i] == c && forall k :: from <= k < i ==> s[k] != c
    ensures Find(s, c, from) == Some(i)
    decreases i - from
  {
    if from >= i {
    } else {
      FindIs(s, c, from + 1, i);
    }
  }

  /** Nothing behind the index found. */
  lemma {:induction false} FindLastLaw(s: string, c: char, from: int)
    requires from < |s|
    ensures var r := FindLast(s, c, from);
      forall i :: (if r.Some? then r.value + 1 else 0) <= i <= from ==> s[i] != c
    decreases from + 1
  {
    if from < 0 {
    } else {
      FindLastLaw(s, c, from - 1);
    }
  }

  // ---------------------------------------------------------------------------------------
  // Trimming
  // ---------------------------------------------------------------------------------------

  predicate IsSpace(c: char) {
    c == ' ' || c == '\t' || c == '\r' || c == '\n'
  }

  predicate AllSpace(s: string) {
    forall i :: 0 <= i < |s| ==> IsSpace(s[i])
  }

  predicate Trimmed(s: string) {
    s == "" || (!IsSpace(s[0]) && !IsSpace(s[|s| - 1]))
  }

  function FirstNonSpace(s: string, from: nat): (r: Option<nat>)
    ensures r.Some? ==> from <= r.value < |s| && !IsSpace(s[r.value])
                        && forall i :: from <= i < r.value ==> IsSpace(s[i])
    ensures r.None? ==> forall i :: from <= i < |s| ==> IsSpace(s[i])
    decreases |s| - from
  {
    if from >= |s| then None
    else if !IsSpace(s[from]) then Some(from)
    else FirstNonSpace(s, from + 1)
  }

  function LastNonSpace(s: string, below: nat): (r: Option<nat>)
    requires below <= |s|
    ensures r.Some? ==> r.value < below && !IsSpace(s[r.value]) && forall i :: r.value < i < below ==> IsSpace(s[i])
    ensures r.None? ==> forall i :: 0 <= i < below ==> IsSpace(s[i])
  {
    if below == 0 then None
    else if !IsSpace(s[below - 1]) then Some(below - 1)
    else LastNonSpace(s, below - 1)
  }

  function Trim(s: string): string {
    match FirstNonSpace(s, 0)
    case None => ""
    case Some(b) =>
      match LastNonSpace(s, |s|)
      case None => ""
      case Some(e) => if b <= e then s[b..e + 1] else ""
  }

  /** White space is blank, tab, carriage return and newline. Trimming takes only white space off,
      takes all of it, and is the only text to do so. */
  lemma TrimLaw(s: string, t: string)
    ensures forall c :: IsSpace(c) <==> c in {' ', '\t', '\r', '\n'}
    ensures t == Trim(s) <==> Trimmed(t) && exists a, b :: AllSpace(a) && AllSpace(b) && s == a + t + b
  {
    var first, last := TrimSplits(s);
    if Trimmed(t) {
      forall a, b | AllSpace(a) && AllSpace(b) && s == a + t + b ensures t == Trim(s) {
        TrimUnique(a, t, b);
      }
    }
  }

  lemma TrimSplits(s: string) returns (a: string, b: string)
    ensures Trimmed(Trim(s)) && AllSpace(a) && AllSpace(b) && s == a + Trim(s) + b
  {
    var first := FirstNonSpace(s, 0);
    if first.None? {
      return s, "";
    }
    var last := LastNonSpace(s, |s|).value;
    assert first.value <= last;
    a, b := s[..first.value], s[last + 1..];
  }

  lemma TrimUnique(a: string, t: string, b: string)
    requires AllSpace(a) && AllSpace(b) && Trimmed(t)
    ensures Trim(a + t + b) == t
  {
    var s := a + t + b;
    if t == "" {
      assert forall i :: 0 <= i < |s| ==> s[i] == if i < |a| then a[i] else b[i - |a|];
    } else {
      hide FirstNonSpace, LastNonSpace;
      assert forall i :: 0 <= i < |a| ==> s[i] == a[i];
      assert forall i :: |a| + |t| <= i < |s| ==> s[i] == b[i - |a| - |t|];
      assert s[|a|] == t[0] && s[|a| + |t| - 1] == t[|t| - 1];
      assert s[|a|..|a| + |t|] == t;
    }
  }

  // ---------------------------------------------------------------------------------------
  // Splitting
  // ---------------------------------------------------------------------------------------

  /** All segments between delimiters, from a position on. */
  function Segments(s: string, d: char, from: nat): (v: seq<string>)
    requires from <= |s|
    ensures v != []
    decreases |s| - from
  {
    match Find(s, d, from)
    case None => [s[from..]]
    case Some(i) => [s[from..i]] + Segments(s, d, i + 1)
  }

  function Join(v: seq<string>, d: char): string {
    if v == [] then "" else if |v| == 1 then v[0] else v[0] + [d] + Join(v[1..], d)
  }

  function Occurrences(s: string, d: char, from: nat): nat
    decreases |s| - from
  {
    if from >= |s| then 0 else (if s[from] == d then 1 else 0) + Occurrences(s, d, from + 1)
  }

  /** The first `limit - 1` segments, and all the rest in one. */
  function SplitSpec(s: string, d: char, from: nat, limit: nat): (v: seq<string>)
    requires from <= |s|
    ensures v != []
    decreases limit
  {
    if limit <= 1 then [s[from..]]
    else match Find(s, d, from)
      case None => [s[from..]]
      case Some(i) => [s[from..i]] + SplitSpec(s, d, i + 1, limit - 1)
  }

  /** Scan for delimiters, write a segment for each until one below the limit is reached, and then
      the rest as the last segment. A limit of 0 writes the whole text as one segment all the same. */
  method Split(s: string, d: char, maxSegments: nat) returns (output: seq<string>, count: nat)
    ensures output == SplitSpec(s, d, 0, maxSegments) && count == |output|
  {
    var left: nat := 0;
    output := [];
    var i := 1;
    ghost var room: nat := maxSegments;
    ghost var whole := SplitSpec(s, d, 0, maxSegments);
    ghost var rest := whole;
    while i < maxSegments
      invariant left <= |s| && 1 <= i && |output| == i - 1 && i + room == maxSegments + 1
      invariant rest == SplitSpec(s, d, left, room) && output + rest == whole
    {
      var right := Find(s, d, left);
      if right.None? {
        break;
      }
      MoveOne(output, rest, whole);
      output := output + [s[left..right.value]];
      left := right.value + 1;
      i := i + 1;
      room := room - 1;
      rest := rest[1..];
    }
    output := output + [s[left..]];
    count := i;
  }

  lemma MoveOne<T>(done: seq<T>, rest: seq<T>, whole: seq<T>)
    requires done + rest == whole && rest != []
    ensures done + [rest[0]] + rest[1..] == whole
  {
  }

  lemma {:induction false} OccurrencesAt(s: string, d: char, from: nat)
    ensures Occurrences(s, d, from)
         == match Find(s, d, from) case None => 0 case Some(i) => 1 + Occurrences(s, d, i + 1)
    decreases |s| - from
  {
    if from >= |s| {
    } else {
      OccurrencesAt(s, d, from + 1);
    }
  }

  /** Joining the pieces restores the text. */
  lemma {:induction false} SplitLossless(s: string, d: char, from: nat, limit: nat)
    requires from <= |s|
    ensures Join(SplitSpec(s, d, from, limit), d) == s[from..]
    decreases limit
  {
    if limit <= 1 || Find(s, d, from).None? {
    } else {
      var i := Find(s, d, from).value;
      SplitLossless(s, d, i + 1, limit - 1);
    }
  }

  lemma NotBefore(s: string, d: char, from: nat, i: nat)
    requires from <= i < |s| && Find(s, d, from) == Some(i)
    ensures d !in s[from..i]
  {
    FindLaw(s, d, from);
    assert forall k :: 0 <= k < i - from ==> s[from..i][k] == s[from + k];
  }

  ghost predicate OnlyLastContains(v: seq<string>, d: char) {
    forall i :: 0 <= i < |v| - 1 ==> d !in v[i]
  }

  /** Only the last piece may contain a delimiter. */
  lemma {:induction false} SplitPieces(s: string, d: char, from: nat, limit: nat)
    requires from <= |s|
    ensures OnlyLastContains(SplitSpec(s, d, from, limit), d)
    decreases limit
  {
    if limit <= 1 || Find(s, d, from).None? {
    } else {
      var i := Find(s, d, from).value;
      NotBefore(s, d, from, i);
      SplitPieces(s, d, i + 1, limit - 1);
    }
  }

  /** There is one piece more than delimiters, up to the limit. A limit of 0 counts as 1. */
  lemma {:induction false} SplitCount(s: string, d: char, from: nat, limit: nat)
    requires from <= |s|
    ensures var n := Occurrences(s, d, from);
      |SplitSpec(s, d, from, limit)| == if limit <= 1 then 1 else if limit <= n then limit else n + 1
    decreases limit
  {
    OccurrencesAt(s, d, from);
    if limit <= 1 || Find(s, d, from).None? {
    } else {
      SplitCount(s, d, Find(s, d, from).value + 1, limit - 1);
    }
  }

  /** The documented bound on the number of segments holds exactly if the limit is not 0. */
  lemma SplitBound(s: string, d: char, limit: nat)
    ensures |SplitSpec(s, d, 0, limit)| <= limit <==> limit >= 1
  {
    SplitCount(s, d, 0, limit);
  }

  /** A limit above the number of delimiters does not limit. */
  lemma {:induction false} SplitUnlimited(s: string, d: char, from: nat, limit: nat)
    requires from <= |s| && limit > Occurrences(s, d, from)
    ensures SplitSpec(s, d, from, limit) == Segments(s, d, from)
    decreases limit
  {
    OccurrencesAt(s, d, from);
    if Find(s, d, from).None? {
    } else {
      SplitUnlimited(s, d, Find(s, d, from).value + 1, limit - 1);
    }
  }

  // ---------------------------------------------------------------------------------------
  // Suffixes
  // ---------------------------------------------------------------------------------------

  /** t is what stands in s from `base` on, said by index. */
  ghost predicate Suffix(t: string, s: string, base: nat) {
    |s| == base + |t| && forall k :: 0 <= k < |t| ==> t[k] == s[base + k]
  }

  lemma {:induction false} FindInSuffix(t: string, s: string, base: nat, c: char, from: nat)
    requires Suffix(t, s, base) && from <= |t|
    ensures Find(s, c, base + from) == match Find(t, c, from) case None => None case Some(i) => Some(base + i)
    decreases |t| - from
  {
    if from >= |t| {
    } else {
      FindInSuffix(t, s, base, c, from + 1);
    }
  }

  lemma SuffixSlice(t: string, s: string, base: nat, from: nat, end: nat)
    requires Suffix(t, s, base) && from <= end <= |t|
    ensures t[from..end] == s[base + from..base + end]
  {
  }

  lemma SuffixRest(t: string, s: string, base: nat, from: nat)
    requires Suffix(t, s, base) && from <= |t|
    ensures t[from..] == s[base + from..]
  {
  }

  lemma {:induction false} SegmentsInSuffix(t: string, s: string, base: nat, d: char, from: nat)
    requires Suffix(t, s, base) && from <= |t|
    ensures Segments(s, d, base + from) == Segments(t, d, from)
    decreases |t| - from
  {
    FindInSuffix(t, s, base, d, from);
    var r := Find(t, d, from);
    if r.None? {
      SuffixRest(t, s, base, from);
    } else {
      SuffixSlice(t, s, base, from, r.value);
      SegmentsInSuffix(t, s, base, d, r.value + 1);
    }
  }
}
