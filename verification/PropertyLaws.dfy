/** What property files say, line by line: the grammar of an assignment, what its names and references
    stand for, and which line of a file decides a key. */
module PropertyLaws {
  import opened Options
  import opened StringUtil
  import opened Properties

  /** A line as it may be written: white space around key and value, and a comment behind them. */
  datatype Line = Line(a: string, key: string, b: string, c: string, value: string, d: string, comment: string)

  function Text(l: Line): string {
    l.a + l.key + l.b + "=" + l.c + l.value + l.d + l.comment
  }

  /** The first '=' ends the key, the first '#' begins the comment. */
  predicate Written(l: Line) {
    && AllSpace(l.a) && AllSpace(l.b) && AllSpace(l.c) && AllSpace(l.d)
    && Trimmed(l.key) && '=' !in l.key && '#' !in l.key && Trimmed(l.value) && '#' !in l.value
    && (l.comment == "" || l.comment[0] == '#')
  }

  /** The entry that a key as written names. */
  predicate Denotes(key: string, name: string) {
    || key == "log4cpp." + name
    || key == "log4j." + name
    || (key == name && !("log4cpp." <= key) && !("log4j." <= key))
  }

  /** The text is an assignment of this value to this name. */
  ghost predicate Assigns(text: string, name: string, value: string) {
    exists l :: Written(l) && text == Text(l) && Denotes(l.key, name) && l.value == value
  }

  lemma StripNames(key: string, name: string)
    ensures Denotes(key, name) <==> StripPrefix(key) == name
  {
    StripLaw(name);
    StripLaw(key);
    if "log4cpp." <= key {
      StripLaw(key[8..]);
      assert key == "log4cpp." + key[8..];
    } else if "log4j." <= key {
      StripLaw(key[6..]);
      assert key == "log4j." + key[6..];
    }
  }

  lemma NoSpaceIn(s: string, c: char)
    requires AllSpace(s) && !IsSpace(c)
    ensures c !in s
  {
  }

  lemma CommandOf(l: Line)
    requires Written(l)
    ensures Command(Text(l)) == l.a + l.key + l.b + "=" + l.c + l.value + l.d
  {
    var cmd := l.a + l.key + l.b + "=" + l.c + l.value + l.d;
    NoSpaceIn(l.a, '#');
    NoSpaceIn(l.b, '#');
    NoSpaceIn(l.c, '#');
    NoSpaceIn(l.d, '#');
    assert '#' !in cmd;
    hide *;
    CutAtComment(cmd, l.comment);
  }

  lemma CutAtComment(cmd: string, comment: string)
    requires '#' !in cmd && (comment == "" || comment[0] == '#')
    ensures Command(cmd + comment) == cmd
  {
    var line := cmd + comment;
    assert forall i :: 0 <= i < |cmd| ==> line[i] == cmd[i];
    if comment == "" {
      assert line == cmd;
      FindLaw(line, '#', 0);
    } else {
      FindIs(line, '#', 0, |cmd|);
      assert line[..|cmd|] == cmd;
    }
  }

  lemma ParsesAs(left: string, right: string)
    requires '=' !in left
    ensures ParseAssignment(left + "=" + right) == Some(Assignment(StripPrefix(Trim(left)), Trim(right)))
  {
    hide Trim, StripPrefix;
    var cmd := left + "=" + right;
    assert forall i :: 0 <= i < |left| ==> cmd[i] == left[i];
    FindIs(cmd, '=', 0, |left|);
    assert cmd[..|left|] == left && cmd[|left| + 1..] == right;
  }

  /** A line says exactly what its grammar says: it assigns a value to a name if and only if it can
      be taken apart so. */
  lemma AssignmentLaw(text: string, name: string, value: string)
    ensures ParseAssignment(Command(text)) == Some(Assignment(name, value)) <==> Assigns(text, name, value)
  {
    if Assigns(text, name, value) {
      var l :| Written(l) && text == Text(l) && Denotes(l.key, name) && l.value == value;
      WrittenParses(l, name);
    }
    if ParseAssignment(Command(text)) == Some(Assignment(name, value)) {
      var l := TakenApart(text, name, value);
    }
  }

  lemma WrittenParses(l: Line, name: string)
    requires Written(l) && Denotes(l.key, name)
    ensures ParseAssignment(Command(Text(l))) == Some(Assignment(name, l.value))
  {
    CommandOf(l);
    NoSpaceIn(l.a, '=');
    NoSpaceIn(l.b, '=');
    assert '=' !in l.a + l.key + l.b;
    hide *;
    assert l.a + l.key + l.b + "=" + l.c + l.value + l.d == (l.a + l.key + l.b) + "=" + (l.c + l.value + l.d);
    ParsesAs(l.a + l.key + l.b, l.c + l.value + l.d);
    WrittenTrims(l);
    StripNames(l.key, name);
  }

  lemma WrittenTrims(l: Line)
    requires Written(l)
    ensures Trim(l.a + l.key + l.b) == l.key && Trim(l.c + l.value + l.d) == l.value
  {
    TrimUnique(l.a, l.key, l.b);
    TrimUnique(l.c, l.value, l.d);
  }

  lemma CommentCut(text: string) returns (comment: string)
    ensures text == Command(text) + comment && '#' !in Command(text)
    ensures comment == "" || comment[0] == '#'
  {
    FindLaw(text, '#', 0);
    comment := text[|Command(text)|..];
  }

  lemma AssignmentCut(cmd: string) returns (left: string, right: string)
    requires ParseAssignment(cmd).Some?
    ensures cmd == left + "=" + right && '=' !in left
    ensures ParseAssignment(cmd).value == Assignment(StripPrefix(Trim(left)), Trim(right))
  {
    hide Trim, StripPrefix;
    var i := Find(cmd, '=', 0).value;
    FindLaw(cmd, '=', 0);
    left, right := cmd[..i], cmd[i + 1..];
  }

  lemma TakenApart(text: string, name: string, value: string) returns (l: Line)
    requires ParseAssignment(Command(text)) == Some(Assignment(name, value))
    ensures Written(l) && text == Text(l) && Denotes(l.key, name) && l.value == value
  {
    hide Trim, StripPrefix, Denotes, Command, ParseAssignment, AllSpace, Trimmed;
    var comment := CommentCut(text);
    var left, right := AssignmentCut(Command(text));
    var a, b := TrimSplits(left);
    var c, d := TrimSplits(right);
    var key := Trim(left);
    l := Line(a, key, b, c, value, d, comment);
    StripNames(key, name);
    NotInParts(left, right, Command(text), '#');
    InParts(left, a, key, b, '=');
    InParts(left, a, key, b, '#');
    InParts(right, c, value, d, '#');
    Grouped(a, key, b, c, value, d, comment);
  }

  lemma NotInParts(left: string, right: string, cmd: string, x: char)
    requires cmd == left + "=" + right && x !in cmd
    ensures x !in left && x !in right
  {
    assert forall k :: 0 <= k < |left| ==> left[k] == cmd[k];
    assert forall k :: 0 <= k < |right| ==> right[k] == cmd[|left| + 1 + k];
  }

  lemma Grouped(a: string, k: string, b: string, c: string, v: string, d: string, comment: string)
    ensures (a + k + b) + "=" + (c + v + d) + comment == Text(Line(a, k, b, c, v, d, comment))
  {
  }

  lemma InParts(s: string, a: string, t: string, b: string, x: char)
    requires s == a + t + b && x !in s
    ensures x !in t
  {
    assert forall k :: 0 <= k < |t| ==> t[k] == s[|a| + k];
  }

  // ---------------------------------------------------------------------------------------
  // References
  // ---------------------------------------------------------------------------------------

  /** What a reference in a value stands for: the environment goes before the file's earlier entries,
      an unknown name stands for nothing, and ${${} is how "${" itself is written. */
  lemma ReferenceMeans(store: Store, env: Environment, text: string, name: string, x: string, k: string, y: string)
    requires Assigns(text, name, x + "${" + k + "}" + y) && name !in store
    requires '$' !in x && '$' !in y && '}' !in k && '\0' !in k
    ensures ProcessLine(store, text, env) == store[name := x + (
      if k == "${" then "${"
      else if env(k).Some? then env(k).value
      else if k in store then store[k]
      else "") + y]
  {
    var names := Names(env, store);
    AssignmentLaw(text, name, x + "${" + k + "}" + y);
    NoReference(x);
    NoReference(y);
    SubstituteFirst(x, k, y, names);
    SubstituteIdentity(y, names);
    FindLaw(k, '\0', 0);
    hide Substitute, ParseAssignment, Command, Find, Assigns;
  }

  lemma {:induction false} NoReferenceFrom(s: string, from: nat)
    requires '$' !in s
    ensures FindOpen(s, from).None?
    decreases |s| - from
  {
    if from + 2 > |s| {
    } else {
      NoReferenceFrom(s, from + 1);
    }
  }

  lemma NoReference(s: string)
    requires '$' !in s
    ensures FindOpen(s, 0).None? && NoClosedTag(s)
  {
    NoReferenceFrom(s, 0);
  }

  // ---------------------------------------------------------------------------------------
  // Files
  // ---------------------------------------------------------------------------------------

  /** Some line up to the n-th, as it is read, assigns to this name. */
  ghost predicate AssignedBefore(lines: seq<string>, n: nat, name: string)
    requires n <= |lines|
  {
    exists i :: 0 <= i < n && AssignsTo(Pieced(lines[i]), name)
  }

  ghost predicate AssignsTo(text: string, name: string) {
    exists value :: Assigns(text, name, value)
  }

  lemma AssignsOnce(text: string)
    ensures forall n, v, n', v' :: Assigns(text, n, v) && Assigns(text, n', v') ==> n == n' && v == v'
  {
    forall n, v, n', v' | Assigns(text, n, v) && Assigns(text, n', v') ensures n == n' && v == v' {
      AssignmentLaw(text, n, v);
      AssignmentLaw(text, n', v');
    }
  }

  /** One line's effect on one name. */
  lemma LineEffect(store: Store, text: string, env: Environment, name: string)
    ensures var t := ProcessLine(store, text, env);
      && (name in store ==> name in t && t[name] == store[name])
      && (name in t && name !in store ==> AssignsTo(text, name))
      && forall value :: Assigns(text, name, value) && name !in store ==>
           name in t && t[name] == Substitute(value, 0, Names(env, store))
  {
    hide Assigns, Substitute, Command;
    var a := ParseAssignment(Command(text));
    if a.Some? {
      AssignmentLaw(text, a.value.key, a.value.value);
    }
    forall value | Assigns(text, name, value) ensures a == Some(Assignment(name, value)) {
      AssignmentLaw(text, name, value);
    }
  }

  lemma AssignedFirst(lines: seq<string>, n: nat, name: string)
    requires 1 <= n <= |lines|
    ensures AssignedBefore(lines, n, name)
      <==> AssignsTo(Pieced(lines[0]), name) || AssignedBefore(lines[1..], n - 1, name)
  {
    hide AssignsTo, Pieced;
    if AssignedBefore(lines, n, name) {
      var i :| 0 <= i < n && AssignsTo(Pieced(lines[i]), name);
      assert i > 0 ==> AssignsTo(Pieced(lines[1..][i - 1]), name);
    }
    if AssignedBefore(lines[1..], n - 1, name) {
      var i :| 0 <= i < n - 1 && AssignsTo(Pieced(lines[1..][i]), name);
      assert AssignsTo(Pieced(lines[i + 1]), name);
    }
  }

  /** The names that have an entry: those that had one, and those that some line assigns. */
  lemma {:induction false} EntriesAre(store: Store, lines: seq<string>, env: Environment, name: string)
    ensures var t := ForLines(store, lines, LineStep(env));
      && (name in store ==> name in t && t[name] == store[name])
      && (name !in store ==> (name in t <==> AssignedBefore(lines, |lines|, name)))
    decreases |lines|
  {
    if lines == [] {
    } else {
      hide Assigns, Pieced, ProcessLine, AssignedBefore;
      var n, rest := ProcessLine(store, Pieced(lines[0]), env), lines[1..];
      LineEffect(store, Pieced(lines[0]), env, name);
      AssignedFirst(lines, |lines|, name);
      EntriesAre(n, rest, env, name);
    }
  }

  /** The entries of a file: exactly the names that some line assigns, each with the value of the
      first line that does, its references resolved by what the lines before it gave. */
  lemma FirstLineWins(text: string, env: Environment, name: string, i: nat, value: string)
    requires i < |Segments(text, '\n', 0)|
    ensures var lines := Segments(text, '\n', 0);
      && (name in Loaded(text, env) <==> AssignedBefore(lines, |lines|, name))
      && (!AssignedBefore(lines, i, name) && Assigns(Pieced(lines[i]), name, value) ==>
            && name in Loaded(text, env)
            && Loaded(text, env)[name]
               == Substitute(value, 0, Names(env, ForLines(map[], lines[..i], LineStep(env)))))
  {
    hide Assigns, Pieced, AssignedBefore, Segments, ForLines, Substitute;
    var lines := Segments(text, '\n', 0);
    EntriesAre(map[], lines, env, name);
    if !AssignedBefore(lines, i, name) && Assigns(Pieced(lines[i]), name, value) {
      FirstDecides(map[], lines, env, name, i, value);
    }
  }

  lemma {:induction false} FirstDecides(store: Store, lines: seq<string>, env: Environment, name: string,
                                        i: nat, value: string)
    requires i < |lines| && name !in store && !AssignedBefore(lines, i, name)
    requires Assigns(Pieced(lines[i]), name, value)
    ensures var t := ForLines(store, lines, LineStep(env));
      name in t && t[name] == Substitute(value, 0, Names(env, ForLines(store, lines[..i], LineStep(env))))
    decreases |lines|
  {
    hide Assigns, Pieced, ProcessLine, AssignedBefore, Substitute;
    var n, rest := ProcessLine(store, Pieced(lines[0]), env), lines[1..];
    LineEffect(store, Pieced(lines[0]), env, name);
    if i == 0 {
      EntriesAre(n, rest, env, name);
    } else {
      AssignedFirst(lines, i, name);
      assert lines[..i][1..] == rest[..i - 1];
      FirstDecides(n, rest, env, name, i - 1, value);
    }
  }
}
