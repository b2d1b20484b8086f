/** Property text: a map saved as `key=value` lines and loaded back through 256-character reads,
    comment and white-space stripping, variable substitution and prefix removal. */
module Properties {
  import opened Options
  import opened StringUtil

  type Store = map<string, string>

  /** The environment, as getenv sees it. */
  type Environment = string -> Option<string>

  const PIECE: nat := 255   // characters one getline call can store

  /** A C string ends at its first NUL. */
  function CStr(s: string): string {
    match Find(s, '\0', 0)
    case None => s
    case Some(i) => s[..i]
  }

  // ---------------------------------------------------------------------------------------
  // Substitution
  // ---------------------------------------------------------------------------------------

  predicate OpensAt(s: string, i: nat) {
    i + 2 <= |s| && s[i] == '$' && s[i + 1] == '{'
  }

  /** The first "${" from a position on. */
  function FindOpen(s: string, from: nat): (r: Option<nat>)
    ensures r.Some? ==> from <= r.value && OpensAt(s, r.value)
    decreases |s| - from
  {
    if from + 2 > |s| then None
    else if OpensAt(s, from) then Some(from)
    else FindOpen(s, from + 1)
  }

  /** What a closed variable reference stands for. */
  function Lookup(key: string, env: Environment, store: Store): string {
    if key == "${" then "${"
    else match env(CStr(key))
      case Some(v) => v
      case None => if key in store then store[key] else ""
  }

  function Names(env: Environment, store: Store): string -> string {
    key => Lookup(key, env, store)
  }

  /** Leftmost first, from a position on: replace the first closed reference, then go on behind it. */
  function Substitute(v: string, left: nat, names: string -> string): string
    requires left <= |v|
    decreases |v| - left
  {
    match FindOpen(v, left)
    case None => v[left..]
    case Some(open) =>
      match Find(v, '}', open + 2)
      case None => v[left..]
      case Some(close) => v[left..open] + names(v[open + 2..close]) + Substitute(v, close + 1, names)
  }

  /** No "${" is followed by a "}". */
  predicate NoClosedTag(v: string) {
    match FindOpen(v, 0)
    case None => true
    case Some(open) => Find(v, '}', open + 2).None?
  }

  // ---------------------------------------------------------------------------------------
  // One line
  // ---------------------------------------------------------------------------------------

  /** Drop a leading log4j. or log4cpp. from a key. */
  function StripPrefix(key: string): string {
    match Find(key, '.', 0)
    case None => key
    case Some(i) => if key[..i] == "log4j" || key[..i] == "log4cpp" then key[i + 1..] else key
  }

  /** The part of a line before a comment. */
  function Command(line: string): string {
    match Find(line, '#', 0) case None => line case Some(i) => line[..i]
  }

  /** A key and a value as written. */
  datatype Assignment = Assignment(key: string, value: string)

  function ParseAssignment(command: string): Option<Assignment> {
    match Find(command, '=', 0)
    case None => None
    case Some(i) => Some(Assignment(StripPrefix(Trim(command[..i])), Trim(command[i + 1..])))
  }

  /** A line's assignment, if it has one, is entered unless the key is there already. */
  function ProcessLine(store: Store, line: string, env: Environment): Store {
    match ParseAssignment(Command(line))
    case None => store
    case Some(a) => if a.key in store then store else store[a.key := Substitute(a.value, 0, Names(env, store))]
  }

  /** A line as it arrives through reads of at most PIECE characters. */
  function Pieced(line: string): string
    decreases |line|
  {
    if |line| <= PIECE then CStr(line) else CStr(line[..PIECE]) + Pieced(line[PIECE..])
  }

  /** Fold a step over the lines as they are read. */
  function ForLines(store: Store, lines: seq<string>, step: (Store, string) -> Store): Store
    decreases |lines|
  {
    if lines == [] then store else ForLines(step(store, Pieced(lines[0])), lines[1..], step)
  }

  function LineStep(env: Environment): (Store, string) -> Store {
    (store, line) => ProcessLine(store, line, env)
  }

  /** What a text loads as. */
  function Loaded(text: string, env: Environment): Store {
    ForLines(map[], Segments(text, '\n', 0), LineStep(env))
  }

  function LineText(key: string, value: string): string {
    key + "=" + value
  }

  function SaveText(m: Store, order: seq<string>): string
    requires forall k :: k in order ==> k in m
  {
    if order == [] then "" else LineText(order[0], m[order[0]]) + "\n" + SaveText(m, order[1..])
  }

  /** An iteration order of a map. */
  ghost predicate Enumerates(order: seq<string>, m: Store) {
    && (forall k :: k in order <==> k in m)
    && (forall i, j :: 0 <= i < j < |order| ==> order[i] != order[j])
  }

  /** What one getline call delivers. */
  datatype Read = Read(piece: string, next: nat, fails: bool, ends: bool)

  function LineEnd(text: string, at: nat): (e: nat)
    requires at <= |text|
    ensures at <= e <= |text| && (e < |text| ==> text[e] == '\n')
  {
    match Find(text, '\n', at) case None => |text| case Some(i) => i
  }

  /** getline into 256 characters: the end of the input is noticed before the delimiter, the
      delimiter before a full buffer, and a full buffer or an empty last read is a failure. */
  function GetLine(text: string, at: nat): (r: Read)
    requires at <= |text|
    ensures at <= r.next <= |text| && |r.piece| <= PIECE
  {
    var e := LineEnd(text, at);
    if e - at > PIECE then Read(text[at..at + PIECE], at + PIECE, true, false)
    else if e == |text| then Read(text[at..e], e, e == at, true)
    else Read(text[at..e], e + 1, false, false)
  }

  /** What loading ends with, when the reads have come to a position inside a line whose first
      pieces are in `head`. */
  ghost function After(text: string, at: nat, head: string, store: Store, step: (Store, string) -> Store): Store
    requires at <= |text|
  {
    var v := Segments(text, '\n', at);
    ForLines(step(store, head + Pieced(v[0])), v[1..], step)
  }

  lemma AfterStart(text: string, at: nat, store: Store, step: (Store, string) -> Store)
    requires at <= |text|
    ensures After(text, at, "", store, step) == ForLines(store, Segments(text, '\n', at), step)
  {
    assert "" + Pieced(Segments(text, '\n', at)[0]) == Pieced(Segments(text, '\n', at)[0]);
  }

  lemma {:induction false} FindLater(s: string, c: char, from: nat, later: nat)
    requires from <= later <= |s| && (Find(s, c, from).Some? ==> later <= Find(s, c, from).value)
    ensures Find(s, c, later) == Find(s, c, from)
    decreases later - from
  {
    if from >= later {
    } else {
      FindLater(s, c, from + 1, later);
    }
  }

  lemma SplitPiece(text: string, at: nat, e: nat)
    requires at + PIECE < e <= |text|
    ensures Pieced(text[at..e]) == CStr(text[at..at + PIECE]) + Pieced(text[at + PIECE..e])
  {
    hide CStr;
    var line := text[at..e];
    assert line[..PIECE] == text[at..at + PIECE] && line[PIECE..] == text[at + PIECE..e];
  }

  lemma PieceStep(text: string, at: nat)
    requires at <= |text| && LineEnd(text, at) - at > PIECE
    ensures var v, w := Segments(text, '\n', at), Segments(text, '\n', at + PIECE);
      v[1..] == w[1..] && Pieced(v[0]) == CStr(text[at..at + PIECE]) + Pieced(w[0])
  {
    hide Pieced, CStr;
    FindLater(text, '\n', at, at + PIECE);
    SplitPiece(text, at, LineEnd(text, at));
    assert text[at..] == text[at..|text|] && text[at + PIECE..] == text[at + PIECE..|text|];
  }

  /** A getline call that fills its buffer takes a piece off the line. */
  lemma ReadPiece(text: string, at: nat, head: string, store: Store, step: (Store, string) -> Store)
    requires at <= |text| && GetLine(text, at).fails && !GetLine(text, at).ends
    ensures var r := GetLine(text, at);
      After(text, at, head, store, step) == After(text, r.next, head + CStr(r.piece), store, step)
  {
    hide Pieced, CStr, ForLines, Segments;
    PieceStep(text, at);
    var w := Segments(text, '\n', at + PIECE);
    assert head + (CStr(text[at..at + PIECE]) + Pieced(w[0])) == head + CStr(text[at..at + PIECE]) + Pieced(w[0]);
  }

  /** A getline call that meets the end of the input finishes the last line. */
  lemma ReadLast(text: string, at: nat, head: string, store: Store, step: (Store, string) -> Store)
    requires at <= |text| && GetLine(text, at).ends
    ensures After(text, at, head, store, step) == step(store, head + CStr(GetLine(text, at).piece))
  {
    hide CStr;
    assert text[at..] == text[at..|text|];
  }

  lemma ShortLine(line: string)
    requires |line| <= PIECE
    ensures Pieced(line) == CStr(line)
  {
  }

  /** A getline call that meets a newline finishes a line. */
  lemma ReadWhole(text: string, at: nat, head: string, store: Store, step: (Store, string) -> Store)
    requires at <= |text| && !GetLine(text, at).fails && !GetLine(text, at).ends
    ensures var r := GetLine(text, at);
      After(text, at, head, store, step) == After(text, r.next, "", step(store, head + CStr(r.piece)), step)
  {
    hide Pieced, CStr, ForLines;
    var e := LineEnd(text, at);
    ShortLine(text[at..e]);
    AfterStart(text, e + 1, step(store, head + CStr(text[at..e])), step);
    var rest := Segments(text, '\n', e + 1);
    assert ([text[at..e]] + rest)[1..] == rest;
  }

  /** What loading ends with, in any state of the read loop. */
  ghost function Pending(text: string, at: nat, over: bool, head: string, store: Store,
                         step: (Store, string) -> Store): Store
    requires at <= |text|
  {
    if over then store else After(text, at, head, store, step)
  }

  lemma PendingStep(text: string, at: nat, head: string, store: Store, step: (Store, string) -> Store)
    requires at <= |text|
    ensures var r := GetLine(text, at);
      var full := head + CStr(r.piece);
      var next := if r.fails && !r.ends then store else step(store, full);
      Pending(text, at, false, head, store, step)
        == Pending(text, r.next, r.ends, if r.fails && !r.ends then full else "", next, step)
    ensures head == "" ==> head + CStr(GetLine(text, at).piece) == CStr(GetLine(text, at).piece)
  {
    hide After, CStr;
    var r := GetLine(text, at);
    if r.ends {
      ReadLast(text, at, head, store, step);
    } else if r.fails {
      ReadPiece(text, at, head, store, step);
    } else {
      ReadWhole(text, at, head, store, step);
    }
  }

  /** The text written so far and the substitution of the rest make up the whole result. */
  ghost predicate Substituted(v: string, left: nat, names: string -> string, done: string, whole: string)
    requires left <= |v|
  {
    done + Substitute(v, left, names) == whole
  }

  lemma SubstituteUnclosed(v: string, left: nat, names: string -> string, done: string, whole: string, open: nat)
    requires left <= |v| && Substituted(v, left, names, done, whole)
    requires FindOpen(v, left) == Some(open) && Find(v, '}', open + 2).None?
    ensures done + v[left..open] + v[open..] == whole
  {
    hide Substitute, Find, FindOpen;
    UnfoldOpen(v, left, names);
    Rejoin(v, left, open, done);
  }

  lemma Rejoin(v: string, left: nat, open: nat, done: string)
    requires left <= open <= |v|
    ensures done + v[left..open] + v[open..] == done + v[left..]
  {
  }

  lemma SubstituteClosed(v: string, left: nat, names: string -> string, done: string, whole: string,
                         open: nat, close: nat)
    requires left <= |v| && Substituted(v, left, names, done, whole)
    requires FindOpen(v, left) == Some(open) && Find(v, '}', open + 2) == Some(close)
    ensures Substituted(v, close + 1, names, done + v[left..open] + names(v[open + 2..close]), whole)
  {
    UnfoldClosed(v, left, open, close, names);
    hide Substitute, Find, FindOpen;
    Regroup(done, v[left..open], names(v[open + 2..close]), Substitute(v, close + 1, names));
  }

  lemma Regroup(a: string, b: string, c: string, d: string)
    ensures a + (b + c + d) == a + b + c + d
  {
  }

  /** The scanner over one value. `names` says what a reference stands for. */
  method Scan(value: string, names: string -> string) returns (result: string)
    ensures result == Substitute(value, 0, names)
  {
    hide Substitute, Find, FindOpen;
    ghost var whole := Substitute(value, 0, names);
    var left: nat := 0;
    var right := FindOpen(value, left);
    result := "";
    if right.None? {
      UnfoldOpen(value, 0, names);
      return value;
    }
    assert Substituted(value, 0, names, "", whole);
    while true
      invariant left <= |value| && right == FindOpen(value, left)
      invariant Substituted(value, left, names, result, whole)
      decreases |value| - left
    {
      if right.None? {
        UnfoldOpen(value, left, names);
        return result + value[left..];
      }
      var close := Find(value, '}', right.value + 2);
      if close.None? {
        SubstituteUnclosed(value, left, names, result, whole, right.value);
        return result + value[left..right.value] + value[right.value..];
      }
      SubstituteClosed(value, left, names, result, whole, right.value, close.value);
      result := result + value[left..right.value] + names(value[right.value + 2..close.value]);
      left := close.value + 1;
      right := FindOpen(value, left);
    }
  }

  class Properties {
    var entries: Store

    constructor ()
      ensures entries == map[]
    {
      entries := map[];
    }

    method SubstituteVariables(value: string, env: Environment) returns (result: string)
      ensures result == Substitute(value, 0, Names(env, entries))
    {
      result := Scan(value, Names(env, entries));
    }

    method ReadLine(line: string, env: Environment)
      modifies this
      ensures entries == ProcessLine(old(entries), line, env)
    {
      hide Trim, Substitute, Names, StripPrefix, Find;
      var command := line;
      var length := Find(line, '#', 0);
      if length.Some? {
        if length.value == 0 {
          assert line[..0] == "";
          return;
        }
        command := line[..length.value];
      }
      length := Find(command, '=', 0);
      if length.None? {
        return;
      }
      var leftSide := Trim(command[..length.value]);
      var rightSide := SubstituteVariables(Trim(command[length.value + 1..]), env);
      leftSide := StripPrefix(leftSide);
      if leftSide !in entries {
        entries := entries[leftSide := rightSide];
      }
    }

    /** Reassemble lines from pieces and process each. */
    method Load(text: string, env: Environment)
      modifies this
      ensures entries == Loaded(text, env)
    {
      entries := map[];
      var at: nat := 0;
      var ends, fails, partial := false, false, false;
      var fullLine := "";
      ghost var step := LineStep(env);
      AfterStart(text, 0, entries, step);
      while !fails
        invariant at <= |text| && (ends && !fails ==> !partial)
        invariant Pending(text, at, ends || fails, if partial then fullLine else "", entries, step) == Loaded(text, env)
        decreases |text| - at, !ends, !fails
      {
        var line := "";
        if ends {
          fails := true;
        } else {
          PendingStep(text, at, if partial then fullLine else "", entries, step);
          var r := GetLine(text, at);
          line, at, fails, ends := CStr(r.piece), r.next, r.fails, r.ends;
        }
        if partial {
          fullLine := fullLine + line;
        } else {
          fullLine := line;
        }
        partial := fails;
        if partial && !ends {
          fails := false;
          continue;
        }
        ReadLine(fullLine, env);
      }
    }

    method Save(order: seq<string>) returns (out: string)
      requires Enumerates(order, entries)
      ensures out == SaveText(entries, order)
    {
      out := "";
      for i := 0 to |order|
        invariant out + SaveText(entries, order[i..]) == SaveText(entries, order)
      {
        out := out + (LineText(order[i], entries[order[i]]) + "\n");
      }
    }
  }

  // ---------------------------------------------------------------------------------------
  // Laws
  // ---------------------------------------------------------------------------------------

  /** Reading in pieces yields the logical line, whatever its length. */
  lemma {:induction false} PiecedIsLine(line: string)
    requires '\0' !in line
    ensures Pieced(line) == line
    decreases |line|
  {
    if |line| > PIECE {
      PiecedIsLine(line[PIECE..]);
      assert line == line[..PIECE] + line[PIECE..];
    }
  }

  /** A NUL hides what follows it in the same 255 characters, and nothing else. */
  lemma NulHidesPiece(a: string, b: string, rest: string)
    requires '\0' !in a && |a| + 1 + |b| == 255
    ensures Pieced(a + "\0" + b + rest) == a + Pieced(rest)
  {
    var piece := a + "\0" + b;
    FindIs(piece, '\0', 0, |a|);
    assert piece[..|a|] == a;
    if rest == "" {
      assert piece + rest == piece;
    } else {
      assert (piece + rest)[..255] == piece && (piece + rest)[255..] == rest;
    }
  }

  /** Text without a closed reference stays as it is, open tags included. */
  lemma SubstituteIdentity(v: string, names: string -> string)
    requires NoClosedTag(v)
    ensures Substitute(v, 0, names) == v
  {
    assert v[0..] == v;
  }

  lemma {:induction false} FindOpenIs(v: string, from: nat, i: nat)
    requires from <= i && OpensAt(v, i) && forall k: nat :: from <= k < i ==> !OpensAt(v, k)
    ensures FindOpen(v, from) == Some(i)
    decreases i - from
  {
    if from >= i {
    } else {
      FindOpenIs(v, from + 1, i);
    }
  }

  lemma {:induction false} FindOpenNone(v: string, from: nat)
    requires FindOpen(v, from).None?
    ensures forall i: nat :: from <= i ==> !OpensAt(v, i)
    decreases |v| - from
  {
    if from + 2 > |v| {
    } else {
      FindOpenNone(v, from + 1);
    }
  }

  lemma FirstOpen(a: string, rest: string)
    requires FindOpen(a, 0).None?
    ensures FindOpen(a + "${" + rest, 0) == Some(|a|)
  {
    var v := a + "${" + rest;
    FindOpenNone(a, 0);
    forall i: nat | i < |a| ensures !OpensAt(v, i) {
      assert v[i] == a[i] && v[i + 1] == if i + 1 < |a| then a[i + 1] else '$';
      assert !OpensAt(a, i);
    }
    FindOpenIs(v, 0, |a|);
  }

  lemma FirstClose(before: string, key: string, b: string)
    requires '}' !in key
    ensures Find(before + key + "}" + b, '}', |before|) == Some(|before| + |key|)
  {
    var v := before + key + "}" + b;
    forall i | |before| <= i < |before| + |key| ensures v[i] != '}' {
      assert v[i] == key[i - |before|];
    }
    FindIs(v, '}', |before|, |before| + |key|);
  }

  lemma {:induction false} FindOpenInSuffix(t: string, s: string, base: nat, from: nat)
    requires Suffix(t, s, base) && from <= |t|
    ensures FindOpen(s, base + from) == match FindOpen(t, from) case None => None case Some(i) => Some(base + i)
    decreases |t| - from
  {
    if from + 2 > |t| {
    } else {
      FindOpenInSuffix(t, s, base, from + 1);
    }
  }

  lemma UnfoldClosed(v: string, left: nat, open: nat, close: nat, names: string -> string)
    requires left <= |v| && FindOpen(v, left) == Some(open) && Find(v, '}', open + 2) == Some(close)
    ensures Substitute(v, left, names) == v[left..open] + names(v[open + 2..close]) + Substitute(v, close + 1, names)
  {
  }

  lemma UnfoldOpen(v: string, left: nat, names: string -> string)
    requires left <= |v|
    requires FindOpen(v, left).Some? ==> Find(v, '}', FindOpen(v, left).value + 2).None?
    ensures Substitute(v, left, names) == v[left..]
  {
  }

  /** Substitution depends on the text ahead only. */
  lemma {:induction false} SubstituteInSuffix(t: string, s: string, base: nat, from: nat, names: string -> string)
    requires Suffix(t, s, base) && from <= |t|
    ensures Substitute(s, base + from, names) == Substitute(t, from, names)
    decreases |t| - from
  {
    hide FindOpen, Find, Substitute;
    FindOpenInSuffix(t, s, base, from);
    var open := FindOpen(t, from);
    if open.Some? {
      FindInSuffix(t, s, base, '}', open.value + 2);
    }
    if open.Some? && Find(t, '}', open.value + 2).Some? {
      var close := Find(t, '}', open.value + 2).value;
      SuffixSlice(t, s, base, from, open.value);
      SuffixSlice(t, s, base, open.value + 2, close);
      SubstituteInSuffix(t, s, base, close + 1, names);
      UnfoldClosed(t, from, open.value, close, names);
      UnfoldClosed(s, base + from, base + open.value, base + close, names);
    } else {
      SuffixRest(t, s, base, from);
      UnfoldOpen(t, from, names);
      UnfoldOpen(s, base + from, names);
    }
  }

  lemma TagParts(a: string, key: string, b: string)
    ensures var v, close := a + "${" + key + "}" + b, |a| + 2 + |key|;
      && a + "${" + (key + "}" + b) == v
      && v[0..|a|] == a && v[|a| + 2..close] == key && Suffix(b, v, close + 1)
  {
  }

  /** The meaning of the scanner: the first reference is replaced once, by what its name stands for;
      the text before it is kept, the replacement is not scanned again, and the text behind is
      treated alike. */
  lemma SubstituteFirst(a: string, key: string, b: string, names: string -> string)
    requires FindOpen(a, 0).None? && '}' !in key
    ensures Substitute(a + "${" + key + "}" + b, 0, names) == a + names(key) + Substitute(b, 0, names)
  {
    hide *;
    var v, close := a + "${" + key + "}" + b, |a| + 2 + |key|;
    FirstClose(a + "${", key, b);
    FirstOpen(a, key + "}" + b);
    TagParts(a, key, b);
    UnfoldClosed(v, 0, |a|, close, names);
    SubstituteInSuffix(b, v, close + 1, 0, names);
  }

  // ---------------------------------------------------------------------------------------
  // Save and load
  // ---------------------------------------------------------------------------------------

  predicate Plain(s: string) {
    Trimmed(s) && '#' !in s && '\n' !in s && '\0' !in s
  }

  predicate KeyOk(k: string) {
    Plain(k) && '=' !in k && !("log4j." <= k) && !("log4cpp." <= k)
  }

  predicate ValueOk(v: string) {
    Plain(v) && NoClosedTag(v)
  }

  ghost predicate Storable(m: Store) {
    forall k :: k in m ==> KeyOk(k) && ValueOk(m[k])
  }

  /** What becomes of a prefix. */
  lemma StripLaw(key: string)
    ensures StripPrefix("log4cpp." + key) == key && StripPrefix("log4j." + key) == key
    ensures !("log4j." <= key) && !("log4cpp." <= key) ==> StripPrefix(key) == key
  {
    var a, b := "log4cpp." + key, "log4j." + key;
    FindIs(a, '.', 0, 7);
    FindIs(b, '.', 0, 5);
    assert a[..7] == "log4cpp" && b[..5] == "log4j";
    var dot := Find(key, '.', 0);
    if dot.Some? {
      assert key[..dot.value + 1] == key[..dot.value] + ".";
    }
  }

  lemma TrimIdentity(s: string)
    requires Trimmed(s)
    ensures Trim(s) == s
  {
    TrimUnique("", s, "");
    assert "" + s + "" == s;
  }

  lemma SavedCommand(k: string, v: string)
    requires KeyOk(k) && ValueOk(v)
    ensures Pieced(LineText(k, v)) == LineText(k, v) && Command(LineText(k, v)) == LineText(k, v)
  {
    var line := LineText(k, v);
    assert forall i :: 0 <= i < |line| ==> line[i] in k || line[i] == '=' || line[i] in v;
    PiecedIsLine(line);
  }

  lemma SavedAssignment(k: string, v: string)
    requires KeyOk(k) && ValueOk(v)
    ensures ParseAssignment(LineText(k, v)) == Some(Assignment(k, v))
  {
    var line := LineText(k, v);
    assert forall i :: 0 <= i < |k| ==> line[i] == k[i];
    FindIs(line, '=', 0, |k|);
    assert line[..|k|] == k && line[|k| + 1..] == v;
    TrimIdentity(k);
    TrimIdentity(v);
    StripLaw(k);
  }

  /** A saved line puts its pair back. */
  lemma LineLoads(k: string, v: string, store: Store, env: Environment)
    requires KeyOk(k) && ValueOk(v) && k !in store
    ensures LineStep(env)(store, Pieced(LineText(k, v))) == store[k := v]
  {
    SavedCommand(k, v);
    SavedAssignment(k, v);
    SubstituteIdentity(v, Names(env, store));
  }

  lemma FirstNewline(line: string, rest: string)
    requires '\n' !in line
    ensures var text := line + "\n" + rest;
      Find(text, '\n', 0) == Some(|line|) && text[0..|line|] == line && Suffix(rest, text, |line| + 1)
  {
    var text := line + "\n" + rest;
    assert forall i :: 0 <= i < |line| ==> text[i] == line[i];
    assert text[|line|] == '\n';
    FindIs(text, '\n', 0, |line|);
  }

  lemma UnfoldSegments(s: string, d: char, i: nat)
    requires Find(s, d, 0) == Some(i)
    ensures Segments(s, d, 0) == [s[0..i]] + Segments(s, d, i + 1)
  {
  }

  lemma FirstSegment(line: string, rest: string)
    requires '\n' !in line
    ensures Segments(line + "\n" + rest, '\n', 0) == [line] + Segments(rest, '\n', 0)
  {
    hide *;
    var text := line + "\n" + rest;
    FirstNewline(line, rest);
    UnfoldSegments(text, '\n', |line|);
    SegmentsInSuffix(rest, text, |line| + 1, '\n', 0);
  }

  lemma LineOfPair(k: string, v: string)
    requires KeyOk(k) && ValueOk(v)
    ensures '\n' !in LineText(k, v)
  {
    var line := LineText(k, v);
    assert forall i :: 0 <= i < |line| ==> line[i] in k || line[i] == '=' || line[i] in v;
  }

  lemma SavedSegments(m: Store, order: seq<string>)
    requires Storable(m) && order != [] && forall k :: k in order ==> k in m
    ensures Segments(SaveText(m, order), '\n', 0)
         == [LineText(order[0], m[order[0]])] + Segments(SaveText(m, order[1..]), '\n', 0)
  {
    hide Segments, LineText, KeyOk, ValueOk;
    var k := order[0];
    assert k in order;
    LineOfPair(k, m[k]);
    FirstSegment(LineText(k, m[k]), SaveText(m, order[1..]));
  }

  /** The step puts a saved line's pair in, and ignores an empty line. */
  ghost predicate PutsPairs(m: Store, step: (Store, string) -> Store) {
    && (forall s, k :: k in m && k !in s ==> step(s, Pieced(LineText(k, m[k]))) == s[k := m[k]])
    && (forall s :: step(s, Pieced("")) == s)
  }

  lemma {:induction false} LineStepPutsPairs(m: Store, env: Environment)
    requires Storable(m)
    ensures PutsPairs(m, LineStep(env))
  {
    var step := LineStep(env);
    forall s, k | k in m && k !in s ensures step(s, Pieced(LineText(k, m[k]))) == s[k := m[k]] {
      LineLoads(k, m[k], s, env);
    }
    forall s ensures step(s, Pieced("")) == s {
    }
  }

  /** Loading the saved text of a list of keys adds just their pairs, given a step that puts a
      saved line's pair in. */
  lemma {:induction false} LoadSaved(m: Store, order: seq<string>, store: Store, step: (Store, string) -> Store)
    requires Storable(m) && (forall k :: k in order ==> k in m && k !in store)
    requires forall i, j :: 0 <= i < j < |order| ==> order[i] != order[j]
    requires PutsPairs(m, step)
    ensures ForLines(store, Segments(SaveText(m, order), '\n', 0), step) == store + map k | k in order :: m[k]
    decreases |order|
  {
    if order == [] {
      assert Segments("", '\n', 0) == [""];
      assert ForLines(store, [""], step) == ForLines(step(store, Pieced("")), [""][1..], step);
    } else {
      var k := order[0];
      assert k in order;
      SavedSegments(m, order);
      LoadSaved(m, order[1..], store[k := m[k]], step);
      OneMoreKey(m, order, store);
    }
  }

  lemma OneMoreKey(m: Store, order: seq<string>, store: Store)
    requires order != [] && forall k :: k in order ==> k in m
    requires order[0] !in order[1..]
    ensures store[order[0] := m[order[0]]] + (map k | k in order[1..] :: m[k]) == store + map k | k in order :: m[k]
  {
    assert forall x :: x in order <==> x == order[0] || x in order[1..];
  }

  lemma AllKeys(m: Store, order: seq<string>)
    requires Enumerates(order, m)
    ensures map[] + (map k | k in order :: m[k]) == m
  {
  }

  /** Saving a map in any order and loading the text gives the map back, in any environment, if keys
      and values are trimmed and free of '#', newline and NUL, keys free of '=' and of a leading
      log4j. or log4cpp., and values without a closed reference. */
  lemma SaveLoadRoundTrip(m: Store, order: seq<string>, env: Environment)
    requires Storable(m) && Enumerates(order, m)
    ensures Loaded(SaveText(m, order), env) == m
  {
    LineStepPutsPairs(m, env);
    LoadSaved(m, order, map[], LineStep(env));
    AllKeys(m, order);
  }
}
