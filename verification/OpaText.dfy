/**
 Policies as rule lists, their direct meaning, their rendering as text, and
 the proof that evaluating the text gives the direct meaning. White space and
 remarks are part of a rule list, each position with its own, but not of its
 meaning.
 */
module OpaText {
  import opened Wrappers
  import opened OpaEngine

  /** An item with the white space around it. */
  datatype Spaced<T> = Spaced(front: string, item: T, back: string)

  datatype Arg = Ref(path: seq<string>) | Quoted(s: string) | Bare(text: string)
  datatype Cond =
    | Word(text: string)
    | Check(path: seq<string>)
    | Infix(path: seq<string>, op: Spaced<string>, arg: Arg)
    | Call(name: string, args: seq<Spaced<Arg>>)
  datatype Kind = Deny | Allow | Violation
  datatype Rule = Rule(kind: Kind, gap: string, conds: seq<Spaced<Cond>>, after: string)
  datatype Source = Source(front: string, gap: string, name: string, tail: string, rules: seq<Rule>)

  // ----- direct meaning

  /** How conditions are read: as the engine's text searches find them, or as their author intended. */
  datatype Reading = Searched | Intended(truth: (string, Value) -> bool)

  function Lookup(input: Value, path: seq<string>): Value {
    if path == [] then input
    else if !input.Object? || path[0] !in input.fields then Null
    else Lookup(input.fields[path[0]], path[1..])
  }

  function ArgValue(a: Arg, input: Value, sem: Semantics): Value {
    match a
    case Ref(path) => Lookup(input, path)
    case Quoted(s) => Str(s)
    case Bare(text) => sem.literal(text)
  }

  function ArgValues(args: seq<Spaced<Arg>>, input: Value, sem: Semantics): seq<Value> {
    if args == [] then [] else [ArgValue(args[0].item, input, sem)] + ArgValues(args[1..], input, sem)
  }

  /** Whether the path leads to a value, be it null. */
  predicate Present(input: Value, path: seq<string>) {
    path == [] || (input.Object? && path[0] in input.fields && Present(input.fields[path[0]], path[1..]))
  }

  /** The literals that are more than their text. */
  function Keyword(text: string): Option<Value> {
    if text == "true" then Some(Bool(true))
    else if text == "false" then Some(Bool(false))
    else if text == "null" then Some(Null)
    else None
  }

  /** What the author means by an argument. */
  function MeantArg(a: Arg, input: Value, sem: Semantics): Value {
    if a.Bare? && Keyword(a.text).Some? then Keyword(a.text).value else ArgValue(a, input, sem)
  }

  function MeantArgs(args: seq<Spaced<Arg>>, input: Value, sem: Semantics): seq<Value> {
    if args == [] then [] else [MeantArg(args[0].item, input, sem)] + MeantArgs(args[1..], input, sem)
  }

  predicate Defined(a: Arg, input: Value) {
    a.Ref? ==> Present(input, a.path)
  }

  predicate AllDefined(args: seq<Spaced<Arg>>, input: Value) {
    forall a :: a in args ==> Defined(a.item, input)
  }

  /** What the author means by a call: eq and neq compare values, the other builtins are taken as they are. */
  function MeantApply(name: string, values: seq<Value>, sem: Semantics): bool {
    if name == "eq" then |values| == 2 && values[0] == values[1]
    else if name == "neq" then |values| == 2 && values[0] != values[1]
    else sem.apply(name, values)
  }

  /** The substring search finds `eq(` inside `neq(`. */
  function Effective(name: string): string {
    if name == "neq" then "eq" else name
  }

  const OPERATORS := ["==", "!=", ">", ">=", "<", "<="]

  /** The builtin that an infix operator stands for. */
  function Named(op: string): string {
    if op == "==" then "eq"
    else if op == "!=" then "neq"
    else if op == ">" then "gt"
    else if op == ">=" then "gte"
    else if op == "<" then "lt"
    else "lte"
  }

  /**
   The searches take no notice of a word, read a whole infix comparison as one path, and want some
   text between the parentheses of a call; a condition in which they find nothing holds. The author
   means that a value holds unless it is absent or false, and that nothing holds of an absent one.
   */
  function Holds(c: Cond, input: Value, sem: Semantics, reading: Reading): bool {
    match reading
    case Searched => (
      match c
      case Word(_) => true
      case Check(path) => Lookup(input, path) != Null
      case Infix(path, op, arg) => Lookup(input, Split(InfixText(path, op, arg), '.')) != Null
      case Call(name, args) => args == [] || sem.apply(Effective(name), ArgValues(args, input, sem))
    )
    case Intended(truth) => (
      match c
      case Word(text) => text == "" || text == "true" || (text != "false" && truth(text, input))
      case Check(path) => Present(input, path) && Lookup(input, path) != Bool(false)
      case Infix(path, op, arg) =>
        Present(input, path) && Defined(arg, input)
        && MeantApply(Named(op.item), [Lookup(input, path), MeantArg(arg, input, sem)], sem)
      case Call(name, args) => AllDefined(args, input) && MeantApply(name, MeantArgs(args, input, sem), sem)
    )
  }

  function AllHold(conds: seq<Spaced<Cond>>, input: Value, sem: Semantics, reading: Reading): bool {
    conds == [] || (Holds(conds[0].item, input, sem, reading) && AllHold(conds[1..], input, sem, reading))
  }

  /** False exactly when the first firing deny-or-allow rule is a deny. */
  function Meaning(rules: seq<Rule>, input: Value, sem: Semantics, reading: Reading): bool {
    if rules == [] then true
    else if rules[0].kind != Violation && AllHold(rules[0].conds, input, sem, reading) then rules[0].kind == Allow
    else Meaning(rules[1..], input, sem, reading)
  }

  // ----- rendering

  function Join(items: seq<string>, sep: char): string {
    if items == [] then ""
    else if |items| == 1 then items[0]
    else items[0] + [sep] + Join(items[1..], sep)
  }

  /** The items, each between its own white space. */
  function Pieces(items: seq<Spaced<string>>): (pieces: seq<string>)
    ensures |pieces| == |items|
    ensures forall i :: 0 <= i < |items| ==> pieces[i] == items[i].front + items[i].item + items[i].back
  {
    if items == [] then [] else [items[0].front + items[0].item + items[0].back] + Pieces(items[1..])
  }

  function Items(items: seq<Spaced<string>>): seq<string> {
    if items == [] then [] else [items[0].item] + Items(items[1..])
  }

  function PathText(path: seq<string>): string {
    "input." + Join(path, '.')
  }

  function ArgText(a: Arg): string {
    match a
    case Ref(path) => PathText(path)
    case Quoted(s) => "\"" + s + "\""
    case Bare(text) => text
  }

  function ArgTexts(args: seq<Spaced<Arg>>): (texts: seq<Spaced<string>>)
    ensures |texts| == |args|
    ensures forall i :: 0 <= i < |args| ==> texts[i] == Spaced(args[i].front, ArgText(args[i].item), args[i].back)
  {
    if args == [] then [] else
      [Spaced(args[0].front, ArgText(args[0].item), args[0].back)] + ArgTexts(args[1..])
  }

  function InfixText(path: seq<string>, op: Spaced<string>, arg: Arg): string {
    Join(path, '.') + op.front + op.item + op.back + ArgText(arg)
  }

  function Inner(args: seq<Spaced<Arg>>): string {
    Join(Pieces(ArgTexts(args)), ',')
  }

  function CondText(c: Cond): string {
    match c
    case Word(text) => text
    case Check(path) => PathText(path)
    case Infix(path, op, arg) => "input." + InfixText(path, op, arg)
    case Call(name, args) => name + "(" + Inner(args) + ")"
  }

  function CondTexts(conds: seq<Spaced<Cond>>): (texts: seq<Spaced<string>>)
    ensures |texts| == |conds|
    ensures forall i :: 0 <= i < |conds| ==> texts[i] == Spaced(conds[i].front, CondText(conds[i].item), conds[i].back)
  {
    if conds == [] then [] else
      [Spaced(conds[0].front, CondText(conds[0].item), conds[0].back)] + CondTexts(conds[1..])
  }

  function KindText(k: Kind): string {
    match k
    case Deny => "deny"
    case Allow => "allow"
    case Violation => "violation"
  }

  function BodyText(conds: seq<Spaced<Cond>>): string {
    Join(Pieces(CondTexts(conds)), ';')
  }

  function RulesText(rules: seq<Rule>): string {
    if rules == [] then "" else
      KindText(rules[0].kind) + rules[0].gap + "{" + BodyText(rules[0].conds) + "}" + rules[0].after
      + RulesText(rules[1..])
  }

  function PackageText(src: Source): string {
    src.front + "package" + src.gap + src.name + src.tail
  }

  function Render(src: Source): string {
    PackageText(src) + RulesText(src.rules)
  }

  // ----- the fragment

  ghost predicate AllSpace(t: string) {
    forall i :: 0 <= i < |t| ==> IsSpace(t[i])
  }

  ghost predicate Trimmed(t: string) {
    t != "" ==> !IsSpace(t[0]) && !IsSpace(t[|t| - 1])
  }

  ghost predicate Around<T>(x: Spaced<T>) {
    AllSpace(x.front) && AllSpace(x.back)
  }

  /** None of the characters of `marks` occurs in the text. */
  ghost predicate Free(t: string, marks: string) {
    forall c :: c in marks ==> c !in t
  }

  /** Keys may hold spaces; only the end of the whole path may not be one. */
  ghost predicate PathOk(path: seq<string>, marks: string) {
    path != [] && Trimmed(PathText(path)) && forall k :: k in path ==> Free(k, marks) && Free(k, ".[]")
  }

  ghost predicate ArgOk(a: Arg) {
    match a
    case Ref(path) => PathOk(path, "(),;}")
    case Quoted(s) => Free(s, "(),;}")
    case Bare(text) =>
      Free(text, "(),;}") && Trimmed(text) && !StartsWith(text, "input.")
      && !(StartsWith(text, "\"") && EndsWith(text, "\""))
  }

  ghost predicate CondOk(c: Cond) {
    match c
    case Word(text) => Free(text, "(;}") && Trimmed(text) && !StartsWith(text, "input.")
    case Check(path) => PathOk(path, ";}=<>!")
    case Infix(path, op, arg) =>
      PathOk(path, ";}=<>!") && op.item in OPERATORS && Around(op) && Free(ArgText(arg), "[];}") && Trimmed(CondText(c))
    case Call(name, args) =>
      name in BUILTINS && (args == [] || Inner(args) != "") && forall a :: a in args ==> Around(a) && ArgOk(a.item)
  }

  /** Text between the rules: white space or remarks, without braces that open and with a space at the end. */
  ghost predicate Prose(t: string) {
    '{' !in t && (t != "" ==> IsSpace(t[|t| - 1]))
  }

  ghost predicate RuleOk(r: Rule) {
    AllSpace(r.gap) && Prose(r.after) && BodyText(r.conds) != ""
    && forall c :: c in r.conds ==> Around(c) && CondOk(c.item)
  }

  /** A policy has a package name, and a space somewhere behind it if rules follow. */
  ghost predicate LayoutOk(src: Source) {
    '{' !in src.front && AllSpace(src.gap) && src.gap != "" && Prose(src.tail)
    && src.name != "" && (forall c :: c in src.name ==> !IsSpace(c) && c != '{')
    && (src.rules != [] ==> src.tail != "")
  }

  ghost predicate SourceOk(src: Source) {
    LayoutOk(src) && forall r :: r in src.rules ==> RuleOk(r)
  }

  // ----- stripping and splitting

  lemma {:induction false} StripLeftPad(a: string, t: string)
    requires AllSpace(a)
    ensures StripLeft(a + t) == StripLeft(t)
  {
    if a == "" {
      assert a + t == t;
    } else {
      assert (a + t)[1..] == a[1..] + t;
      StripLeftPad(a[1..], t);
    }
  }

  lemma {:induction false} StripRightPad(t: string, b: string)
    requires AllSpace(b)
    ensures StripRight(t + b) == StripRight(t)
  {
    if b == "" {
      assert t + b == t;
    } else {
      assert (t + b)[..|t + b| - 1] == t + b[..|b| - 1];
      StripRightPad(t, b[..|b| - 1]);
    }
  }

  lemma StripPadded(a: string, t: string, b: string)
    requires AllSpace(a) && AllSpace(b) && Trimmed(t)
    ensures Strip(a + t + b) == t
  {
    assert a + t + b == a + (t + b);
    StripLeftPad(a, t + b);
    if t == "" {
      assert t + b == b;
      StripSpaces(b);
    } else {
      StripRightPad(t, b);
    }
  }

  lemma StripTrimmed(t: string)
    requires Trimmed(t)
    ensures Strip(t) == t
  {
    StripPadded("", t, "");
    assert "" + t + "" == t;
  }

  lemma StripSpaces(t: string)
    requires AllSpace(t)
    ensures Strip(t) == ""
  {
    assert t + "" == t;
    StripLeftPad(t, "");
  }

  lemma {:induction false} SplitNone(a: string, sep: char)
    requires sep !in a
    ensures Split(a, sep) == [a]
  {
    if a != "" {
      assert a == [a[0]] + a[1..];
      SplitNone(a[1..], sep);
    }
  }

  lemma {:induction false} SplitOne(a: string, sep: char, rest: string)
    requires sep !in a
    ensures Split(a + [sep] + rest, sep) == [a] + Split(rest, sep)
  {
    var t := a + [sep] + rest;
    if a == "" {
      assert t[1..] == rest;
    } else {
      assert a == [a[0]] + a[1..];
      assert t[1..] == a[1..] + [sep] + rest;
      SplitOne(a[1..], sep, rest);
    }
  }

  lemma {:induction false} StripBack(t: string, b: string)
    requires AllSpace(b)
    ensures Strip(t + b) == Strip(t)
  {
    if t == "" {
      assert t + b == b;
      StripSpaces(b);
    } else if IsSpace(t[0]) {
      assert (t + b)[1..] == t[1..] + b;
      StripBack(t[1..], b);
    } else {
      StripRightPad(t, b);
    }
  }

  lemma MoreSpace(a: string, b: string)
    requires AllSpace(a) && AllSpace(b)
    ensures AllSpace(a + b)
  {}

  lemma OneSpace(c: char)
    requires IsSpace(c)
    ensures AllSpace([c])
  {}

  /** The white space that stripping takes away. */
  lemma {:induction false} LeftSpace(t: string) returns (a: string)
    ensures AllSpace(a) && t == a + StripLeft(t)
  {
    if t != "" && IsSpace(t[0]) {
      var first, behind := t[0], t[1..];
      var rest := LeftSpace(behind);
      a := [first] + rest;
      assert t == [first] + behind;
      assert [first] + (rest + StripLeft(behind)) == a + StripLeft(behind);
      OneSpace(first);
      MoreSpace([first], rest);
    } else {
      a := "";
    }
  }

  lemma {:induction false} RightSpace(t: string) returns (b: string)
    ensures AllSpace(b) && t == StripRight(t) + b
  {
    if t != "" && IsSpace(t[|t| - 1]) {
      var before, last := t[..|t| - 1], t[|t| - 1];
      var rest := RightSpace(before);
      b := rest + [last];
      assert t == before + [last];
      OneSpace(last);
      MoreSpace(rest, [last]);
    } else {
      b := "";
    }
  }

  /** Text without separator in front of a text goes to its first piece. */
  lemma {:induction false} SplitFront(a: string, t: string, sep: char)
    requires sep !in a
    ensures Split(a + t, sep) == [a + Split(t, sep)[0]] + Split(t, sep)[1..]
  {
    if a == "" {
      assert a + t == t && a + Split(t, sep)[0] == Split(t, sep)[0];
    } else {
      assert a == [a[0]] + a[1..];
      assert (a + t)[1..] == a[1..] + t;
      SplitFront(a[1..], t, sep);
      assert [a[0]] + (a[1..] + Split(t, sep)[0]) == a + Split(t, sep)[0];
    }
  }

  /** Stripping the whole text first changes no stripped piece. */
  lemma StripFirst(t: string, sep: char)
    requires !IsSpace(sep)
    ensures StripEach(Split(Strip(t), sep)) == StripEach(Split(t, sep))
  {
    var a := LeftSpace(t);
    var b := RightSpace(StripLeft(t));
    SplitBack(Strip(t), b, sep);
    SplitFront(a, StripLeft(t), sep);
    var pieces := Split(StripLeft(t), sep);
    StripLeftPad(a, pieces[0]);
  }

  /** White space behind a text goes to its last piece, where stripping removes it. */
  lemma {:induction false} SplitBack(t: string, b: string, sep: char)
    requires AllSpace(b) && !IsSpace(sep)
    ensures StripEach(Split(t + b, sep)) == StripEach(Split(t, sep))
    ensures exists c :: AllSpace(c) && Split(t + b, sep)[0] == Split(t, sep)[0] + c
  {
    if t == "" {
      assert t + b == b;
      SplitNone(b, sep);
      StripSpaces(b);
      assert "" + b == b;
    } else {
      var rest := t[1..];
      assert (t + b)[1..] == rest + b;
      SplitBack(rest, b, sep);
      if t[0] == sep {
        assert Split(t + b, sep)[0] == Split(t, sep)[0] + "";
      } else {
        var c :| AllSpace(c) && Split(rest + b, sep)[0] == Split(rest, sep)[0] + c;
        var first := [t[0]] + Split(rest, sep)[0];
        assert Split(t + b, sep)[0] == first + c;
        StripBack(first, c);
        StripEachHead(Split(rest + b, sep), Split(rest, sep));
      }
    }
  }

  lemma StripEachHead(p: seq<string>, q: seq<string>)
    requires p != [] && q != [] && StripEach(p) == StripEach(q)
    ensures StripEach(p[1..]) == StripEach(q[1..])
  {
    assert StripEach(p)[1..] == StripEach(p[1..]) && StripEach(q)[1..] == StripEach(q[1..]);
  }

  /** Splitting undoes joining. */
  lemma {:induction false} SplitJoin(items: seq<string>, sep: char)
    requires items != [] && forall k :: k in items ==> sep !in k
    ensures Split(Join(items, sep), sep) == items
  {
    assert items == [items[0]] + items[1..];
    if |items| == 1 {
      SplitNone(items[0], sep);
    } else {
      SplitJoin(items[1..], sep);
      SplitOne(items[0], sep, Join(items[1..], sep));
    }
  }

  /** Joining undoes splitting. */
  lemma {:induction false} JoinSplit(t: string, sep: char)
    ensures Join(Split(t, sep), sep) == t
  {
    if t != "" {
      JoinSplit(t[1..], sep);
      assert t == [t[0]] + t[1..];
      JoinFirst(t[0], Split(t[1..], sep), sep);
    }
  }

  lemma JoinFirst(c: char, pieces: seq<string>, sep: char)
    requires pieces != []
    ensures Join([""] + pieces, sep) == [sep] + Join(pieces, sep)
    ensures Join([[c] + pieces[0]] + pieces[1..], sep) == [c] + Join(pieces, sep)
  {
    assert ([""] + pieces)[1..] == pieces;
    assert ([[c] + pieces[0]] + pieces[1..])[1..] == pieces[1..];
  }

  lemma {:induction false} PiecesAreParts(t: string, sep: char, k: string)
    requires k in Split(t, sep)
    ensures sep !in k && forall c :: c in k ==> c in t
  {
    if t != "" {
      var pieces := Split(t[1..], sep);
      assert t == [t[0]] + t[1..];
      if k in pieces {
        PiecesAreParts(t[1..], sep, k);
      } else if k != "" {
        assert k == [t[0]] + pieces[0];
        PiecesAreParts(t[1..], sep, pieces[0]);
      }
    }
  }

  lemma {:induction false} StripPieces(items: seq<Spaced<string>>)
    requires forall x :: x in items ==> Around(x) && Trimmed(x.item)
    ensures StripEach(Pieces(items)) == Items(items)
  {
    if items != [] {
      var first, rest := items[0], items[1..];
      assert items == [first] + rest && first in items;
      assert forall x :: x in rest ==> x in items;
      StripPieces(rest);
      StripPadded(first.front, first.item, first.back);
      assert Pieces(items)[1..] == Pieces(rest);
    }
  }

  lemma PiecesAvoid(items: seq<Spaced<string>>, c: char)
    requires !IsSpace(c) && forall x :: x in items ==> Around(x) && c !in x.item
    ensures forall k :: k in Pieces(items) ==> c !in k
  {
    forall k | k in Pieces(items) ensures c !in k {
      var i :| 0 <= i < |items| && Pieces(items)[i] == k;
      assert items[i] in items;
      SpacesAvoid(items[i].front, c);
      SpacesAvoid(items[i].back, c);
    }
  }

  lemma SpacesAvoid(t: string, c: char)
    requires AllSpace(t) && !IsSpace(c)
    ensures c !in t
  {}

  /** Splitting and stripping undoes any layout, each item with its own white space in front and behind. */
  lemma StripSplitJoin(items: seq<Spaced<string>>, sep: char)
    requires !IsSpace(sep)
    requires items != [] && forall x :: x in items ==> Around(x) && Trimmed(x.item) && sep !in x.item
    ensures StripEach(Split(Join(Pieces(items), sep), sep)) == Items(items)
  {
    PiecesAvoid(items, sep);
    SplitJoin(Pieces(items), sep);
    StripPieces(items);
  }

  /** A character outside all the parts is outside their join. */
  lemma {:induction false} JoinAvoids(items: seq<string>, sep: char, c: char)
    requires c != sep && forall k :: k in items ==> c !in k
    ensures c !in Join(items, sep)
  {
    if |items| > 1 {
      JoinAvoids(items[1..], sep, c);
    }
  }

  // ----- paths

  lemma {:induction false} NormalizePlain(t: string)
    requires '[' !in t && ']' !in t
    ensures Normalize(t) == t
  {
    if t != "" {
      assert t == [t[0]] + t[1..];
      NormalizePlain(t[1..]);
    }
  }

  lemma {:induction false} FollowIsLookup(input: Value, path: seq<string>)
    ensures Follow(input, path) == Lookup(input, path)
  {
    if path != [] && input.Object? && path[0] in input.fields {
      FollowIsLookup(input.fields[path[0]], path[1..]);
    }
  }

  lemma NestedIsLookup(input: Value, path: seq<string>, marks: string)
    requires PathOk(path, marks)
    ensures GetNested(input, PathText(path)) == Lookup(input, path)
  {
    PathIsNormal(path, marks);
    assert forall k :: k in path ==> '.' !in k;
    SplitBehind("input", "input.", path);
    assert (["input"] + path)[1..] == path;
    FollowIsLookup(input, path);
  }

  lemma PathIsNormal(path: seq<string>, marks: string)
    requires PathOk(path, marks)
    ensures Normalize(PathText(path)) == PathText(path)
  {
    PathAvoids(path, marks, '[');
    PathAvoids(path, marks, ']');
    NormalizePlain(PathText(path));
  }

  lemma SplitBehind(first: string, front: string, path: seq<string>)
    requires '.' !in first && path != [] && (forall k :: k in path ==> '.' !in k) && front == first + ['.']
    ensures Split(front + Join(path, '.'), '.') == [first] + path
  {
    SplitJoin(path, '.');
    SplitOne(first, '.', Join(path, '.'));
  }

  lemma PathAvoids(path: seq<string>, marks: string, c: char)
    requires PathOk(path, marks) && (c in marks || c in "[]") && c !in "input."
    ensures c !in PathText(path)
  {
    JoinAvoids(path, '.', c);
  }

  // ----- calls

  lemma ArgIsPlain(a: Arg)
    requires ArgOk(a)
    ensures Trimmed(ArgText(a)) && Free(ArgText(a), "(),;}")
  {
    if a.Ref? {
      forall c | c in "(),;}" ensures c !in ArgText(a) {
        PathAvoids(a.path, "(),;}", c);
      }
    }
  }

  lemma ArgumentIsValue(a: Arg, input: Value, sem: Semantics)
    requires ArgOk(a)
    ensures Argument(input, ArgText(a), sem) == ArgValue(a, input, sem)
  {
    match a {
      case Ref(path) =>
        NestedIsLookup(input, path, "(),;}");
      case Quoted(s) =>
        var t := ArgText(a);
        assert t[0] == '\"' && t[|t| - 1..] == "\"" && t[1..|t| - 1] == s;
        assert "input."[0] != '\"';
      case Bare(text) =>
    }
  }

  lemma {:induction false} ArgumentsAreValues(args: seq<Spaced<Arg>>, input: Value, sem: Semantics)
    requires forall a :: a in args ==> ArgOk(a.item)
    ensures ArgumentList(input, Items(ArgTexts(args)), sem) == ArgValues(args, input, sem)
  {
    if args != [] {
      var rest := args[1..];
      assert args == [args[0]] + rest && args[0] in args;
      assert forall a :: a in rest ==> a in args;
      ArgumentIsValue(args[0].item, input, sem);
      ArgumentsAreValues(rest, input, sem);
      assert ArgTexts(args)[1..] == ArgTexts(rest);
      assert Items(ArgTexts(args)) == [ArgText(args[0].item)] + Items(ArgTexts(rest));
    }
  }

  /** With no '(' in the name or the arguments, a builtin is found exactly when the name ends with it. */
  lemma {:induction false} FoundIffSuffix(name: string, args: string, builtin: string)
    requires '(' !in name && '(' !in args && '(' !in builtin
    ensures Contains(name + "(" + args + ")", builtin + "(") <==> EndsWith(name, builtin)
  {
    var t, open := name + "(" + args + ")", builtin + "(";
    if name == "" {
      NoParenthesis(args + ")", builtin);
      assert t[1..] == args + ")";
      assert t[0] == '(';
      if StartsWith(t, open) {
        assert open[0] == t[0];
      }
    } else {
      assert t[1..] == name[1..] + "(" + args + ")";
      FoundIffSuffix(name[1..], args, builtin);
      StartsIffWhole(name, args, builtin);
      if EndsWith(name, builtin) && |builtin| < |name| {
        assert name[1..][|name[1..]| - |builtin|..] == name[|name| - |builtin|..];
      }
      if EndsWith(name[1..], builtin) {
        assert name[1..][|name[1..]| - |builtin|..] == name[|name| - |builtin|..];
      }
    }
  }

  lemma StartsIffWhole(name: string, args: string, builtin: string)
    requires '(' !in name && '(' !in builtin
    ensures StartsWith(name + "(" + args + ")", builtin + "(") <==> name == builtin
  {
    var t, open := name + "(" + args + ")", builtin + "(";
    assert open[|builtin|] == '(' && t[|name|] == '(';
    assert |builtin| < |name| ==> t[|builtin|] == name[|builtin|];
    assert |builtin| > |name| ==> open[|name|] == builtin[|name|];
    assert t[..|name|] == name && open[..|builtin|] == builtin;
    assert name == builtin ==> t[..|open|] == open;
  }

  lemma PrefixMember(t: string, prefix: string, c: char)
    requires c in prefix
    ensures StartsWith(t, prefix) ==> c in t
  {}

  lemma {:induction false} NoParenthesis(t: string, builtin: string)
    requires '(' !in t
    ensures !Contains(t, builtin + "(")
  {
    var open := builtin + "(";
    assert open[|builtin|] == '(';
    PrefixMember(t, open, '(');
    if t != "" {
      NoParenthesis(t[1..], builtin);
    }
  }

  lemma {:induction false} BeforeFirst(a: string, c: char, rest: string)
    requires c !in a
    ensures Before(a + [c] + rest, c) == Some(a)
  {
    var t := a + [c] + rest;
    if a != "" {
      assert t[1..] == a[1..] + [c] + rest && a == [a[0]] + a[1..];
      BeforeFirst(a[1..], c, rest);
    }
  }

  lemma {:induction false} ArgumentsAreFound(name: string, args: string, builtin: string)
    requires '(' !in name && '(' !in builtin && ')' !in args && args != ""
    requires EndsWith(name, builtin)
    ensures Arguments(name + "(" + args + ")", builtin) == Some(args)
  {
    var t, open := name + "(" + args + ")", builtin + "(";
    StartsIffWhole(name, args, builtin);
    if |name| == |builtin| {
      assert name[0..] == name;
      assert t[|open|..] == args + [')'] + "";
      BeforeFirst(args, ')', "");
    } else {
      assert t[1..] == name[1..] + "(" + args + ")";
      assert name[1..][|name[1..]| - |builtin|..] == name[|name| - |builtin|..];
      ArgumentsAreFound(name[1..], args, builtin);
    }
  }

  function FirstSuffix(name: string, names: seq<string>): Option<string> {
    if names == [] then None
    else if EndsWith(name, names[0]) then Some(names[0])
    else FirstSuffix(name, names[1..])
  }

  lemma {:induction false} DispatchIsFirstSuffix(name: string, args: string, names: seq<string>)
    requires '(' !in name && '(' !in args && forall b :: b in names ==> '(' !in b
    ensures Dispatch(name + "(" + args + ")", names) == FirstSuffix(name, names)
  {
    if names != [] {
      var rest := names[1..];
      assert names == [names[0]] + rest && names[0] in names;
      assert forall b :: b in rest ==> b in names;
      FoundIffSuffix(name, args, names[0]);
      DispatchIsFirstSuffix(name, args, rest);
    }
  }

  /** Two texts that differ k characters from the end are not suffix and text. */
  lemma NotSuffix(t: string, suffix: string, k: nat)
    requires k < |suffix| && (k < |t| ==> t[|t| - 1 - k] != suffix[|suffix| - 1 - k])
    ensures !EndsWith(t, suffix)
  {
    if |suffix| <= |t| {
      assert t[|t| - |suffix|..][|suffix| - 1 - k] == t[|t| - 1 - k];
    }
  }

  lemma {:induction false} FirstSuffixAt(name: string, names: seq<string>, i: nat)
    requires i < |names| && EndsWith(name, names[i])
    requires forall j :: 0 <= j < i ==> !EndsWith(name, names[j])
    ensures FirstSuffix(name, names) == Some(names[i])
  {
    if i > 0 {
      FirstSuffixAt(name, names[1..], i - 1);
    }
  }

  lemma BuiltinSuffixes(n: nat, j: nat)
    requires j < n < |BUILTINS|
    ensures EndsWith(BUILTINS[n], BUILTINS[j]) <==> n == 1 && j == 0
  {
    if n == 1 {
      assert "neq"[1..] == "eq";
    } else {
      var a, b := BUILTINS[n], BUILTINS[j];
      if a[|a| - 1] != b[|b| - 1] {
        NotSuffix(a, b, 0);
      } else if |b| <= |a| {
        NotSuffix(a, b, if a[|a| - 2] != b[|b| - 2] then 1 else 2);
      }
    }
  }

  /** Dispatch finds the builtin that was called, except that it takes neq for eq. */
  lemma DispatchIsEffective(name: string, args: string)
    requires name in BUILTINS && '(' !in args
    ensures Dispatch(name + "(" + args + ")", BUILTINS) == Some(Effective(name))
    ensures EndsWith(name, Effective(name)) && '(' !in name && '(' !in Effective(name)
  {
    NamesArePlain();
    var n :| 0 <= n < |BUILTINS| && BUILTINS[n] == name;
    DispatchIsFirstSuffix(name, args, BUILTINS);
    forall j | 0 <= j < n ensures EndsWith(name, BUILTINS[j]) <==> n == 1 && j == 0 {
      BuiltinSuffixes(n, j);
    }
    FirstSuffixAt(name, BUILTINS, if n == 1 then 0 else n);
    OnlyNeq(n);
    assert name[0..] == name;
  }

  lemma NamesArePlain()
    ensures forall b :: b in BUILTINS ==> forall c :: c in "(){};" ==> c !in b
  {}

  lemma OnlyNeq(n: nat)
    requires n < |BUILTINS|
    ensures BUILTINS[n] == "neq" <==> n == 1
  {
    assert |BUILTINS[n]| == 3 && BUILTINS[n][0] == 'n' ==> n == 1 || BUILTINS[n] == "not";
    assert "not"[1] != "neq"[1];
  }

  lemma ArgTextsArePlain(args: seq<Spaced<Arg>>)
    requires forall a :: a in args ==> Around(a) && ArgOk(a.item)
    ensures forall x :: x in ArgTexts(args) ==> Around(x) && Trimmed(x.item) && Free(x.item, "(),;}")
  {
    forall x | x in ArgTexts(args) ensures Around(x) && Trimmed(x.item) && Free(x.item, "(),;}") {
      var i :| 0 <= i < |args| && ArgTexts(args)[i] == x;
      assert args[i] in args;
      ArgIsPlain(args[i].item);
    }
  }

  lemma InnerAvoids(args: seq<Spaced<Arg>>, c: char)
    requires (forall a :: a in args ==> Around(a) && ArgOk(a.item)) && c in "();}"
    ensures c !in Inner(args)
  {
    ArgTextsArePlain(args);
    PiecesAvoid(ArgTexts(args), c);
    JoinAvoids(Pieces(ArgTexts(args)), ',', c);
  }

  lemma InnerSplits(args: seq<Spaced<Arg>>)
    requires args != [] && forall a :: a in args ==> Around(a) && ArgOk(a.item)
    ensures StripEach(Split(Inner(args), ',')) == Items(ArgTexts(args))
  {
    ArgTextsArePlain(args);
    StripSplitJoin(ArgTexts(args), ',');
  }

  lemma {:induction false} NoArguments(t: string, name: string)
    requires t == "" || (t[|t| - 1] == ')' && forall i :: 0 <= i < |t| - 2 ==> t[i] != '(')
    requires |t| >= 2 ==> t[|t| - 2] == '('
    requires '(' !in name
    ensures Arguments(t, name) == None
  {
    var open := name + "(";
    if StartsWith(t, open) {
      assert open[|name|] == '(' && t[|name|] == '(';
      assert t[|open|..] == ")";
    }
    if t != "" {
      NoArguments(t[1..], name);
    }
  }

  /** A call without arguments counts as true, whatever the builtin. */
  lemma EmptyCallHolds(name: string, builtin: string, input: Value, sem: Semantics)
    requires '(' !in name && '(' !in builtin
    ensures EvalBuiltin(name + "(" + "" + ")", builtin, input, sem)
  {
    NoArguments(name + "(" + "" + ")", builtin);
  }

  lemma BuiltinIsMeant(name: string, args: seq<Spaced<Arg>>, input: Value, sem: Semantics)
    requires CondOk(Call(name, args))
    ensures Dispatch(name + "(" + Inner(args) + ")", BUILTINS) == Some(Effective(name))
    ensures EvalBuiltin(name + "(" + Inner(args) + ")", Effective(name), input, sem)
         == (args == [] || sem.apply(Effective(name), ArgValues(args, input, sem)))
  {
    InnerAvoids(args, '(');
    InnerAvoids(args, ')');
    DispatchIsEffective(name, Inner(args));
    if args == [] {
      EmptyCallHolds(name, Effective(name), input, sem);
    } else {
      ArgumentsAreFound(name, Inner(args), Effective(name));
      InnerSplits(args);
      ArgumentsAreValues(args, input, sem);
    }
  }

  lemma CallIsTrimmed(name: string, inner: string)
    requires name in BUILTINS
    ensures Trimmed(name + "(" + inner + ")") && !StartsWith(name + "(" + inner + ")", "input.")
  {
    var text := name + "(" + inner + ")";
    assert text[0] == name[0] && text[|text| - 1] == ')';
    assert "input."[0] == 'i' && name[0] != 'i';
  }

  lemma {:induction false} WordIsNoCall(text: string, names: seq<string>)
    requires '(' !in text
    ensures Dispatch(text, names) == None
  {
    if names != [] {
      NoParenthesis(text, names[0]);
      WordIsNoCall(text, names[1..]);
    }
  }

  lemma InfixAvoids(path: seq<string>, op: Spaced<string>, arg: Arg, c: char)
    requires CondOk(Infix(path, op, arg)) && c in "[];}"
    ensures c !in InfixText(path, op, arg)
  {
    JoinAvoids(path, '.', c);
    assert c !in op.item;
  }

  /** To the engine an infix condition is a path, split wherever a dot occurs. */
  lemma InfixIsPath(path: seq<string>, op: Spaced<string>, arg: Arg)
    requires CondOk(Infix(path, op, arg))
    ensures var keys := Split(InfixText(path, op, arg), '.');
            PathOk(keys, ";}") && PathText(keys) == CondText(Infix(path, op, arg))
  {
    var text := InfixText(path, op, arg);
    JoinSplit(text, '.');
    forall k | k in Split(text, '.') ensures Free(k, ";}") && Free(k, ".[]") {
      PiecesAreParts(text, '.', k);
      forall c | c in "[];}" ensures c !in k {
        InfixAvoids(path, op, arg, c);
      }
    }
  }

  lemma CondIsPlain(c: Cond)
    requires CondOk(c)
    ensures Trimmed(CondText(c)) && Free(CondText(c), ";}")
  {
    match c {
      case Word(text) =>
      case Check(path) =>
        PathAvoids(path, ";}=<>!", ';');
        PathAvoids(path, ";}=<>!", '}');
      case Infix(path, op, arg) =>
        InfixAvoids(path, op, arg, ';');
        InfixAvoids(path, op, arg, '}');
      case Call(name, args) =>
        CallIsPlain(name, args);
    }
  }

  lemma CallIsPlain(name: string, args: seq<Spaced<Arg>>)
    requires CondOk(Call(name, args))
    ensures Trimmed(CondText(Call(name, args))) && Free(CondText(Call(name, args)), ";}")
  {
    CallIsTrimmed(name, Inner(args));
    InnerAvoids(args, ';');
    InnerAvoids(args, '}');
    NamesArePlain();
  }

  /** A rendered condition evaluates to what it means, as the engine searches it. */
  lemma ConditionIsMeant(c: Cond, input: Value, sem: Semantics)
    requires CondOk(c)
    ensures EvalCondition(CondText(c), input, sem) == Holds(c, input, sem, Searched)
  {
    CondIsPlain(c);
    StripTrimmed(CondText(c));
    match c {
      case Word(text) =>
        WordIsNoCall(text, BUILTINS);
      case Check(path) =>
        NestedIsLookup(input, path, ";}=<>!");
      case Infix(path, op, arg) =>
        InfixIsPath(path, op, arg);
        NestedIsLookup(input, Split(InfixText(path, op, arg), '.'), ";}");
      case Call(name, args) =>
        BuiltinIsMeant(name, args, input, sem);
        CallIsTrimmed(name, Inner(args));
    }
  }

  lemma {:induction false} ConditionsAreMeant(conds: seq<Spaced<Cond>>, input: Value, sem: Semantics)
    requires forall c :: c in conds ==> CondOk(c.item)
    ensures EvalAll(NonEmpty(Items(CondTexts(conds))), input, sem) == AllHold(conds, input, sem, Searched)
  {
    if conds != [] {
      var first, rest := conds[0], conds[1..];
      assert conds == [first] + rest && first in conds;
      assert forall c :: c in rest ==> c in conds;
      ConditionIsMeant(first.item, input, sem);
      ConditionsAreMeant(rest, input, sem);
      assert CondTexts(conds)[1..] == CondTexts(rest);
      var text, texts := CondText(first.item), Items(CondTexts(rest));
      assert Items(CondTexts(conds)) == [text] + texts;
      NonEmptyCons(text, texts, input, sem);
      if text == "" {
        EmptyIsWord(first.item);
      }
    }
  }

  lemma NonEmptyCons(text: string, texts: seq<string>, input: Value, sem: Semantics)
    ensures EvalAll(NonEmpty([text] + texts), input, sem)
         == ((text == "" || EvalCondition(text, input, sem)) && EvalAll(NonEmpty(texts), input, sem))
  {
    assert ([text] + texts)[1..] == texts;
    if text == "" {
      assert NonEmpty([text] + texts) == NonEmpty(texts);
    } else {
      assert NonEmpty([text] + texts) == [text] + NonEmpty(texts);
      assert ([text] + NonEmpty(texts))[1..] == NonEmpty(texts);
    }
  }

  lemma EmptyIsWord(c: Cond)
    requires CondText(c) == ""
    ensures c.Word?
  {}

  lemma CondTextsArePlain(conds: seq<Spaced<Cond>>)
    requires forall c :: c in conds ==> Around(c) && CondOk(c.item)
    ensures forall x :: x in CondTexts(conds) ==> Around(x) && Trimmed(x.item) && Free(x.item, ";}")
  {
    forall x | x in CondTexts(conds) ensures Around(x) && Trimmed(x.item) && Free(x.item, ";}") {
      var i :| 0 <= i < |conds| && CondTexts(conds)[i] == x;
      assert conds[i] in conds;
      CondIsPlain(conds[i].item);
    }
  }

  /** A rendered body fires exactly when all its conditions hold, and has no '}' in it. */
  lemma BodyIsMeant(conds: seq<Spaced<Cond>>, input: Value, sem: Semantics)
    requires forall c :: c in conds ==> Around(c) && CondOk(c.item)
    ensures EvalRule(BodyText(conds), input, sem) == AllHold(conds, input, sem, Searched)
    ensures '}' !in BodyText(conds)
  {
    var body := BodyText(conds);
    CondTextsArePlain(conds);
    PiecesAvoid(CondTexts(conds), '}');
    JoinAvoids(Pieces(CondTexts(conds)), ';', '}');
    BodySplits(conds);
    ConditionsAreMeant(conds, input, sem);
  }

  lemma BodySplits(conds: seq<Spaced<Cond>>)
    requires forall c :: c in conds ==> Around(c) && CondOk(c.item)
    ensures NonEmpty(StripEach(Split(Strip(BodyText(conds)), ';'))) == NonEmpty(Items(CondTexts(conds)))
  {
    StripFirst(BodyText(conds), ';');
    if conds == [] {
      assert StripEach([""]) == [""] && NonEmpty([""]) == [];
    } else {
      CondTextsArePlain(conds);
      StripSplitJoin(CondTexts(conds), ';');
    }
  }

  // ----- scanning

  lemma {:induction false} FirstWordIsNoBrace(q: string, rest: string)
    requires '{' !in q && (rest == "" || (!IsSpace(rest[0]) && rest[0] != '{'))
    ensures var t := StripLeft(q + rest); t == "" || t[0] != '{'
  {
    if q == "" {
      assert q + rest == rest;
    } else {
      assert (q + rest)[1..] == q[1..] + rest;
      FirstWordIsNoBrace(q[1..], rest);
    }
  }

  /** A keyword that starts before the last character of `q`, a space, ends before it. */
  lemma KeywordStaysInLine(q: string, rest: string, keyword: string)
    requires q != "" && (IsSpace(q[|q| - 1]) || rest == "")
    requires (forall c :: c in keyword ==> !IsSpace(c)) && StartsWith(q + rest, keyword)
    ensures |keyword| <= |q|
  {
    var k := if |q| <= |keyword| then |q| - 1 else 0;
    assert keyword != "" ==> keyword[k] in keyword && keyword[k] == (q + rest)[k];
  }

  /** No rule starts inside a line without '{'. */
  lemma NoRuleInLine(q: string, rest: string, keyword: string)
    requires q != "" && (IsSpace(q[|q| - 1]) || rest == "") && '{' !in q
    requires rest == "" || (!IsSpace(rest[0]) && rest[0] != '{')
    requires forall c :: c in keyword ==> !IsSpace(c)
    ensures RuleWith(q + rest, keyword) == None
  {
    var t := q + rest;
    if StartsWith(t, keyword) {
      KeywordStaysInLine(q, rest, keyword);
      assert t[|keyword|..] == q[|keyword|..] + rest;
      FirstWordIsNoBrace(q[|keyword|..], rest);
    }
  }

  lemma {:induction false} ScanSkipsLine(q: string, rest: string)
    requires q != "" ==> (IsSpace(q[|q| - 1]) || rest == "") && '{' !in q
    requires rest == "" || (!IsSpace(rest[0]) && rest[0] != '{')
    ensures Scan(q + rest) == Scan(rest)
  {
    if q == "" {
      assert q + rest == rest;
    } else {
      NoRuleInLine(q, rest, "deny");
      NoRuleInLine(q, rest, "allow");
      NoRuleInLine(q, rest, "violation");
      assert (q + rest)[1..] == q[1..] + rest;
      ScanSkipsLine(q[1..], rest);
    }
  }

  lemma KeywordIsFound(keyword: string, gap: string, body: string, rest: string)
    requires AllSpace(gap) && body != "" && '}' !in body
    ensures RuleWith(keyword + gap + "{" + body + "}" + rest, keyword) == Some(Found(keyword, body, rest))
  {
    var block := "{" + body + "}" + rest;
    var t := keyword + gap + "{" + body + "}" + rest;
    assert t == keyword + (gap + block);
    assert t[|keyword|..] == gap + block;
    StripLeftPad(gap, block);
    assert block[1..] == body + ['}'] + rest;
    BeforeFirst(body, '}', rest);
    assert block[|body| + 2..] == rest;
  }

  lemma OnlyOwnKeyword(kind: Kind, t: string)
    requires t != "" && t[0] == KindText(kind)[0]
    ensures RuleAt(t) == RuleWith(t, KindText(kind))
  {
    assert "deny"[0] == 'd' && "allow"[0] == 'a' && "violation"[0] == 'v';
  }

  lemma RuleIsFound(kind: Kind, gap: string, body: string, rest: string)
    requires AllSpace(gap) && body != "" && '}' !in body
    ensures RuleAt(KindText(kind) + gap + "{" + body + "}" + rest) == Some(Found(KindText(kind), body, rest))
  {
    KeywordIsFound(KindText(kind), gap, body, rest);
    OnlyOwnKeyword(kind, KindText(kind) + gap + "{" + body + "}" + rest);
  }

  lemma ScanFirstRule(kind: Kind, gap: string, body: string, after: string, tail: string)
    requires AllSpace(gap) && Prose(after) && body != "" && '}' !in body
    requires tail == "" || (!IsSpace(tail[0]) && tail[0] != '{')
    ensures Scan(KindText(kind) + gap + "{" + body + "}" + after + tail) == [Block(KindText(kind), body)] + Scan(tail)
  {
    var front := KindText(kind) + gap + "{" + body + "}";
    assert front + after + tail == front + (after + tail);
    RuleIsFound(kind, gap, body, after + tail);
    ScanTakesRule(front + (after + tail), KindText(kind), body, after + tail);
    ScanSkipsLine(after, tail);
  }

  lemma ScanTakesRule(t: string, kind: string, body: string, rest: string)
    requires RuleAt(t) == Some(Found(kind, body, rest))
    ensures Scan(t) == [Block(kind, body)] + Scan(rest)
  {}

  lemma BlockIsMeant(kind: Kind, body: string, blocks: seq<Block>, input: Value, sem: Semantics)
    ensures EvalBlocks([Block(KindText(kind), body)] + blocks, input, sem) ==
            if kind != Violation && EvalRule(body, input, sem) then kind == Allow else EvalBlocks(blocks, input, sem)
  {
    assert ([Block(KindText(kind), body)] + blocks)[1..] == blocks;
    assert "deny"[0] == 'd' && "allow"[0] == 'a' && "violation"[0] == 'v';
  }

  lemma RulesStart(rules: seq<Rule>)
    ensures var t := RulesText(rules); t == "" || (!IsSpace(t[0]) && t[0] != '{')
  {
    if rules != [] {
      assert RulesText(rules)[0] == KindText(rules[0].kind)[0];
    }
  }

  /** Scanning rendered rules and evaluating what is found gives their meaning. */
  lemma {:induction false} RulesAreMeant(rules: seq<Rule>, input: Value, sem: Semantics)
    requires forall r :: r in rules ==> RuleOk(r)
    ensures EvalBlocks(Scan(RulesText(rules)), input, sem) == Meaning(rules, input, sem, Searched)
  {
    if rules != [] {
      var first, rest := rules[0], rules[1..];
      assert rules == [first] + rest && first in rules;
      assert forall r :: r in rest ==> r in rules;
      RulesAreMeant(rest, input, sem);
      RulesStart(rest);
      var body, tail := BodyText(first.conds), RulesText(rest);
      BodyIsMeant(first.conds, input, sem);
      ScanFirstRule(first.kind, first.gap, body, first.after, tail);
      BlockIsMeant(first.kind, body, Scan(tail), input, sem);
    }
  }

  lemma {:induction false} PackageIsFound(front: string, gap: string, after: string)
    requires AllSpace(gap) && gap != "" && after != "" && !IsSpace(after[0])
    ensures HasPackage(front + ("package" + gap + after))
  {
    var code, line := front + ("package" + gap + after), "package" + gap + after;
    if front == "" {
      assert code == line && line[..7] == "package" && line[7] == gap[0];
      assert line[7..] == gap + after;
      StripLeftPad(gap, after);
    } else {
      assert code[1..] == front[1..] + ("package" + gap + after);
      PackageIsFound(front[1..], gap, after);
    }
  }

  /**
   Text evaluation preserves meaning: for every policy of the fragment, every layout of its white
   space, every input and every table of builtin functions, the text means what the rule list means.
   */
  lemma TextMeansRules(src: Source, input: Value, sem: Semantics)
    requires SourceOk(src)
    ensures EvalText(Render(src), input, sem) == Meaning(src.rules, input, sem, Searched)
  {
    PackageIsPassed(src);
    RulesAreMeant(src.rules, input, sem);
  }

  lemma PackageIsPassed(src: Source)
    requires LayoutOk(src)
    ensures HasPackage(Render(src)) && Scan(Render(src)) == Scan(RulesText(src.rules))
  {
    RulesStart(src.rules);
    PackageHasNoBrace(src);
    ScanSkipsLine(PackageText(src), RulesText(src.rules));
    PackageIsSeen(src, RulesText(src.rules));
  }

  lemma PackageIsSeen(src: Source, text: string)
    requires LayoutOk(src)
    ensures HasPackage(PackageText(src) + text)
  {
    var after := src.name + src.tail + text;
    assert src.name[0] in src.name;
    assert PackageText(src) + text == src.front + ("package" + src.gap + after);
    PackageIsFound(src.front, src.gap, after);
  }

  lemma PackageHasNoBrace(src: Source)
    requires LayoutOk(src)
    ensures var line := PackageText(src);
            '{' !in line && (src.rules != [] ==> line != "" && IsSpace(line[|line| - 1]))
  {
    var before := src.front + "package" + src.gap + src.name;
    assert '{' !in "package" && '{' !in src.front && '{' !in src.gap && '{' !in src.name && '{' !in src.tail;
    assert PackageText(src) == before + src.tail;
  }
}
