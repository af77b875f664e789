/**
 When a policy does what its author intended, and what the engine decides on
 policies spelled as the repository spells them.
 */
module OpaIntent {
  import opened OpaEngine
  import opened OpaText

  /** Rules whose conditions are read as intended have the intended meaning. */
  lemma {:induction false} ConditionsDecide(rules: seq<Rule>, input: Value, sem: Semantics, reading: Reading)
    requires forall r, c :: r in rules && c in r.conds ==>
      Holds(c.item, input, sem, Searched) == Holds(c.item, input, sem, reading)
    ensures Meaning(rules, input, sem, Searched) == Meaning(rules, input, sem, reading)
  {
    if rules != [] {
      var rest := rules[1..];
      assert rules == [rules[0]] + rest && rules[0] in rules;
      assert forall r :: r in rest ==> r in rules;
      AllHoldAlike(rules[0].conds, input, sem, reading);
      ConditionsDecide(rest, input, sem, reading);
    }
  }

  lemma {:induction false} AllHoldAlike(conds: seq<Spaced<Cond>>, input: Value, sem: Semantics, reading: Reading)
    requires forall c :: c in conds ==> Holds(c.item, input, sem, Searched) == Holds(c.item, input, sem, reading)
    ensures AllHold(conds, input, sem, Searched) == AllHold(conds, input, sem, reading)
  {
    if conds != [] {
      var rest := conds[1..];
      assert conds == [conds[0]] + rest && conds[0] in conds;
      assert forall c :: c in rest ==> c in conds;
      AllHoldAlike(rest, input, sem, reading);
    }
  }

  /** Python compares a truth value as the number 0 or 1. */
  function AsNumbers(v: Value): Value {
    match v
    case Bool(b) => Num(if b then 1.0 else 0.0)
    case Object(fields) => Object(map k | k in fields :: AsNumbers(fields[k]))
    case _ => v
  }

  /**
   What is known of the engine's builtins and literals: eq and neq compare as Python does; the
   wrong number of arguments raises an error, which counts as false, so that only `and` is true of
   none; text that is no number is kept as text.
   */
  ghost predicate Standard(sem: Semantics) {
    && (forall args :: |args| == 2 ==> sem.apply("eq", args) == (AsNumbers(args[0]) == AsNumbers(args[1])))
    && (forall args :: |args| == 2 ==> sem.apply("neq", args) == !sem.apply("eq", args))
    && (forall args :: |args| != 2 ==> !sem.apply("eq", args) && !sem.apply("neq", args))
    && (forall name :: name in BUILTINS ==> sem.apply(name, []) == (name == "and"))
    && (forall text :: sem.literal(text).Num? || sem.literal(text) == Str(text))
    && (forall text :: Keyword(text).Some? ==> sem.literal(text) == Str(text))
  }

  /** No field name, at any depth, contains a comparison operator. */
  ghost predicate Ordinary(input: Value) {
    input.Object? ==> forall k :: k in input.fields ==> Free(k, "=<>!") && Ordinary(input.fields[k])
  }

  /** A builtin does not answer the same of the arguments that the engine reads and of those that are meant. */
  predicate ResultChanges(name: string, args: seq<Spaced<Arg>>, input: Value, sem: Semantics) {
    sem.apply(name, ArgValues(args, input, sem))
    != (AllDefined(args, input) && MeantApply(name, MeantArgs(args, input, sem), sem))
  }

  predicate IsTrueInfix(path: seq<string>, op: string, arg: Arg, input: Value, sem: Semantics) {
    && Present(input, path) && Defined(arg, input)
    && MeantApply(Named(op), [Lookup(input, path), MeantArg(arg, input, sem)], sem)
  }

  /**
   Where the engine's reading differs from the author's: a word that is not true; a checked value
   that is false or null; an infix comparison that is true or for which there is a field of that
   odd name, not both; an empty call of any builtin but `and`; a neq of two arguments or a call
   whose result depends on the reading of its arguments, not both.
   */
  predicate Misread(c: Cond, input: Value, sem: Semantics, truth: (string, Value) -> bool) {
    match c
    case Word(text) => text != "" && text != "true" && (text == "false" || !truth(text, input))
    case Check(path) => Present(input, path) && Lookup(input, path) in {Null, Bool(false)}
    case Infix(path, op, arg) =>
      IsTrueInfix(path, op.item, arg, input, sem) != (Lookup(input, Split(InfixText(path, op, arg), '.')) != Null)
    case Call(name, args) =>
      if args == [] then name != "and" else (name == "neq" && |args| == 2) != ResultChanges(name, args, input, sem)
  }

  lemma {:induction false} OddKeyIsAbsent(input: Value, keys: seq<string>, i: nat, c: char)
    requires Ordinary(input) && i < |keys| && c in "=<>!" && c in keys[i]
    ensures Lookup(input, keys) == Null
  {
    if input.Object? && keys[0] in input.fields {
      assert Free(keys[0], "=<>!") && Ordinary(input.fields[keys[0]]);
      OddKeyIsAbsent(input.fields[keys[0]], keys[1..], i - 1, c);
    }
  }

  /** On an ordinary input no infix condition holds. */
  lemma InfixFindsNothing(path: seq<string>, op: Spaced<string>, arg: Arg, input: Value)
    requires op.item in OPERATORS && Ordinary(input)
    ensures Lookup(input, Split(InfixText(path, op, arg), '.')) == Null
  {
    var text := InfixText(path, op, arg);
    var keys, c := Split(text, '.'), op.item[0];
    JoinSplit(text, '.');
    assert op.item[0] in "=<>!";
    assert c in op.item && c in text;
    if forall k :: k in keys ==> c !in k {
      JoinAvoids(keys, '.', c);
      assert false;
    }
    var i: nat :| i < |keys| && c in keys[i];
    OddKeyIsAbsent(input, keys, i, c);
  }

  lemma ComparisonMeans(op: string, found: Value, meant: Value, sem: Semantics)
    ensures MeantApply(Named(op), [found, meant], sem) <==>
            if op == "==" then found == meant
            else if op == "!=" then found != meant
            else if op == ">" then sem.apply("gt", [found, meant])
            else if op == ">=" then sem.apply("gte", [found, meant])
            else if op == "<" then sem.apply("lt", [found, meant])
            else sem.apply("lte", [found, meant])
  {
    assert "eq"[0] == 'e' && "neq"[0] == 'n' && "gt"[0] == "gte"[0] == 'g' && "lt"[0] == "lte"[0] == 'l';
  }

  /** So there an infix condition is misread exactly when the comparison is true. */
  lemma InfixMisreadIff(
    path: seq<string>, op: Spaced<string>, arg: Arg, input: Value, sem: Semantics, truth: (string, Value) -> bool)
    requires op.item in OPERATORS && Ordinary(input)
    ensures var found, meant := Lookup(input, path), MeantArg(arg, input, sem);
            Misread(Infix(path, op, arg), input, sem, truth) <==>
            && Present(input, path) && Defined(arg, input)
            && (if op.item == "==" then found == meant
                else if op.item == "!=" then found != meant
                else if op.item == ">" then sem.apply("gt", [found, meant])
                else if op.item == ">=" then sem.apply("gte", [found, meant])
                else if op.item == "<" then sem.apply("lt", [found, meant])
                else sem.apply("lte", [found, meant]))
  {
    InfixFindsNothing(path, op, arg, input);
    ComparisonMeans(op.item, Lookup(input, path), MeantArg(arg, input, sem), sem);
  }

  lemma {:induction false} ArgValuesCount(args: seq<Spaced<Arg>>, input: Value, sem: Semantics)
    ensures |ArgValues(args, input, sem)| == |args|
  {
    if args != [] {
      ArgValuesCount(args[1..], input, sem);
    }
  }

  /** Each key of a path to a value is in the dictionary that the path before it leads to. */
  lemma {:induction false} PresentIff(input: Value, path: seq<string>, key: string)
    ensures Present(input, [])
    ensures Present(input, path + [key]) <==>
            Present(input, path) && Lookup(input, path).Object? && key in Lookup(input, path).fields
  {
    if path == [] {
      assert (path + [key])[1..] == [];
    } else {
      assert (path + [key])[1..] == path[1..] + [key];
      if input.Object? && path[0] in input.fields {
        PresentIff(input.fields[path[0]], path[1..], key);
      }
    }
  }

  lemma {:induction false} AbsentIsNull(input: Value, path: seq<string>)
    ensures !Present(input, path) ==> Lookup(input, path) == Null
  {
    if path != [] && input.Object? && path[0] in input.fields {
      AbsentIsNull(input.fields[path[0]], path[1..]);
    }
  }

  lemma NoArgumentsMeant(name: string, sem: Semantics)
    requires name in BUILTINS && Standard(sem)
    ensures MeantApply(name, [], sem) == (name == "and")
  {}

  /** Taking neq for eq turns its answer round, on two arguments. */
  lemma EffectiveAnswer(name: string, values: seq<Value>, sem: Semantics)
    requires Standard(sem)
    ensures sem.apply(Effective(name), values) == ((name == "neq" && |values| == 2) != sem.apply(name, values))
  {}

  lemma CallMisreadIff(
    name: string, args: seq<Spaced<Arg>>, input: Value, sem: Semantics, truth: (string, Value) -> bool)
    requires name in BUILTINS && Standard(sem)
    ensures var c := Call(name, args);
            Holds(c, input, sem, Searched) == Holds(c, input, sem, Intended(truth)) <==> !Misread(c, input, sem, truth)
  {
    ArgValuesCount(args, input, sem);
    EffectiveAnswer(name, ArgValues(args, input, sem), sem);
    if args == [] {
      assert MeantArgs(args, input, sem) == [];
      NoArgumentsMeant(name, sem);
    }
  }

  lemma MisreadIff(c: Cond, input: Value, sem: Semantics, truth: (string, Value) -> bool)
    requires CondOk(c) && Standard(sem)
    ensures Holds(c, input, sem, Searched) == Holds(c, input, sem, Intended(truth))
            <==> !Misread(c, input, sem, truth)
  {
    match c {
      case Word(text) =>
      case Check(path) => AbsentIsNull(input, path);
      case Infix(path, op, arg) =>
      case Call(name, args) => CallMisreadIff(name, args, input, sem, truth);
    }
  }

  // ----- when the reading of the arguments matters

  /** Read as it is meant: a value that is there and no keyword. */
  predicate Clear(a: Arg, input: Value) {
    Defined(a, input) && !(a.Bare? && Keyword(a.text).Some?)
  }

  lemma {:induction false} ClearArgsAreMeant(args: seq<Spaced<Arg>>, input: Value, sem: Semantics)
    requires forall a :: a in args ==> Clear(a.item, input)
    ensures MeantArgs(args, input, sem) == ArgValues(args, input, sem)
  {
    if args != [] {
      var rest := args[1..];
      assert args == [args[0]] + rest && args[0] in args;
      assert forall a :: a in rest ==> a in args;
      ClearArgsAreMeant(rest, input, sem);
    }
  }

  /** With clear arguments only a comparison of different values that Python holds equal, like true and 1, changes. */
  lemma ClearResultChangesIff(name: string, args: seq<Spaced<Arg>>, input: Value, sem: Semantics)
    requires Standard(sem) && forall a :: a in args ==> Clear(a.item, input)
    ensures ResultChanges(name, args, input, sem) <==>
            && (name == "eq" || name == "neq") && |args| == 2
            && var values := ArgValues(args, input, sem);
               |values| == 2 && values[0] != values[1] && AsNumbers(values[0]) == AsNumbers(values[1])
  {
    ClearArgsAreMeant(args, input, sem);
    ArgValuesCount(args, input, sem);
  }

  /** A comparison with true, false or null, which the engine takes for their text. */
  ghost predicate FlagArgs(args: seq<Spaced<Arg>>, path: seq<string>, word: string) {
    |args| == 2 && args[0].item == Ref(path) && args[1].item == Bare(word) && Keyword(word).Some?
  }

  lemma FlagValues(args: seq<Spaced<Arg>>, path: seq<string>, word: string, input: Value, sem: Semantics)
    requires FlagArgs(args, path, word) && Standard(sem)
    ensures ArgValues(args, input, sem) == [Lookup(input, path), Str(word)]
    ensures MeantArgs(args, input, sem) == [Lookup(input, path), Keyword(word).value]
    ensures AllDefined(args, input) <==> Present(input, path)
  {
    TwoValues(args, input, sem);
    assert args == [args[0], args[1]];
  }

  lemma TwoValues(args: seq<Spaced<Arg>>, input: Value, sem: Semantics)
    requires |args| == 2
    ensures ArgValues(args, input, sem) == [ArgValue(args[0].item, input, sem), ArgValue(args[1].item, input, sem)]
    ensures MeantArgs(args, input, sem) == [MeantArg(args[0].item, input, sem), MeantArg(args[1].item, input, sem)]
  {
    var rest := args[1..];
    assert rest[0] == args[1] && rest[1..] == [];
    assert ArgValues(rest, input, sem) == [ArgValue(args[1].item, input, sem)];
    assert MeantArgs(rest, input, sem) == [MeantArg(args[1].item, input, sem)];
  }

  /** eq then answers otherwise exactly for the meant value, when it is there, and for its text. */
  lemma FlagResultChangesIff(args: seq<Spaced<Arg>>, path: seq<string>, word: string, input: Value, sem: Semantics)
    requires FlagArgs(args, path, word) && Standard(sem)
    ensures var found := Lookup(input, path);
            ResultChanges("eq", args, input, sem) <==>
            found == Str(word) || (Present(input, path) && found == Keyword(word).value)
    ensures ResultChanges("neq", args, input, sem) <==>
            !Present(input, path) || Lookup(input, path) in {Str(word), Keyword(word).value}
  {
    FlagValues(args, path, word, input, sem);
    AbsentIsNull(input, path);
  }

  /** An absent value equals, to the engine, whatever else is absent or null; nothing is meant to equal it. */
  lemma AbsentResultChangesIff(args: seq<Spaced<Arg>>, path: seq<string>, input: Value, sem: Semantics)
    requires |args| == 2 && args[0].item == Ref(path) && !Present(input, path) && Standard(sem)
    ensures ResultChanges("eq", args, input, sem) <==> ArgValue(args[1].item, input, sem) == Null
  {
    TwoValues(args, input, sem);
    AbsentIsNull(input, path);
    assert args[0] in args && !Defined(args[0].item, input);
  }

  lemma TextIsItself(x: Value, y: Value)
    ensures (x.Str? || y.Str?) && AsNumbers(x) == AsNumbers(y) ==> x == y
  {}

  /** Conditions read as they are meant, whatever the author thinks of words and the other builtins do. */
  predicate ReadsAlike(c: Cond, input: Value) {
    match c
    case Word(text) => text == "" || text == "true"
    case Check(path) => !Present(input, path) || Lookup(input, path) !in {Null, Bool(false)}
    case Infix(_, _, _) => false
    case Call(name, args) =>
      && name != "neq" && args != [] && (forall a :: a in args ==> Clear(a.item, input))
      && (name == "eq" && |args| == 2 ==> args[0].item.Quoted? || args[1].item.Quoted?)
  }

  lemma ReadsAlikeIsNotMisread(c: Cond, input: Value, sem: Semantics, truth: (string, Value) -> bool)
    requires Standard(sem) && ReadsAlike(c, input)
    ensures !Misread(c, input, sem, truth)
  {
    if c.Call? {
      ClearResultChangesIff(c.name, c.args, input, sem);
      if |c.args| == 2 {
        TwoValues(c.args, input, sem);
        TextIsItself(ArgValue(c.args[0].item, input, sem), ArgValue(c.args[1].item, input, sem));
      }
    }
  }

  /** Without neq, infix and empty calls, words, and values or literals that are false, null or absent. */
  lemma NoNeqIsIntended(rules: seq<Rule>, input: Value, sem: Semantics, truth: (string, Value) -> bool)
    requires Standard(sem)
    requires forall r, c :: r in rules && c in r.conds ==> CondOk(c.item) && ReadsAlike(c.item, input)
    ensures Meaning(rules, input, sem, Searched) == Meaning(rules, input, sem, Intended(truth))
  {
    forall r, c | r in rules && c in r.conds
      ensures Holds(c.item, input, sem, Searched) == Holds(c.item, input, sem, Intended(truth))
    {
      ReadsAlikeIsNotMisread(c.item, input, sem, truth);
      MisreadIff(c.item, input, sem, truth);
    }
    ConditionsDecide(rules, input, sem, Intended(truth));
  }

  // ----- whole policies

  ghost predicate DoesAsIntended(src: Source, input: Value, sem: Semantics, truth: (string, Value) -> bool) {
    EvalText(Render(src), input, sem) == Meaning(src.rules, input, sem, Intended(truth))
  }

  /** With the engine's builtins a policy without a misread condition does as intended. */
  lemma UnmisreadIsIntended(src: Source, input: Value, sem: Semantics, truth: (string, Value) -> bool)
    requires SourceOk(src) && Standard(sem)
    requires forall r, c :: r in src.rules && c in r.conds ==> !Misread(c.item, input, sem, truth)
    ensures DoesAsIntended(src, input, sem, truth)
  {
    forall r, c | r in src.rules && c in r.conds
      ensures Holds(c.item, input, sem, Searched) == Holds(c.item, input, sem, Intended(truth))
    {
      MisreadIff(c.item, input, sem, truth);
    }
    ConditionsDecide(src.rules, input, sem, Intended(truth));
    TextMeansRules(src, input, sem);
  }

  /** A policy of one deny rule with one condition. */
  ghost predicate OneDeny(src: Source, c: Spaced<Cond>) {
    |src.rules| == 1 && src.rules[0].kind == Deny && src.rules[0].conds == [c]
  }

  /** It denies exactly when the condition holds. */
  lemma SingleDeny(r: Rule, c: Spaced<Cond>, input: Value, sem: Semantics, reading: Reading)
    requires r.kind == Deny && r.conds == [c]
    ensures Meaning([r], input, sem, reading) == !Holds(c.item, input, sem, reading)
  {
    var rules := [r];
    assert rules[1..] == [] && [c][1..] == [] && r.conds[0] == c;
    assert AllHold([c], input, sem, reading) == Holds(c.item, input, sem, reading);
  }

  /** A policy of one deny rule with one condition does as intended exactly when that is not misread. */
  lemma DenyIsIntendedIff(
    src: Source, c: Spaced<Cond>, input: Value, sem: Semantics, truth: (string, Value) -> bool)
    requires SourceOk(src) && OneDeny(src, c) && Standard(sem)
    ensures DoesAsIntended(src, input, sem, truth) <==> !Misread(c.item, input, sem, truth)
  {
    var r := src.rules[0];
    assert src.rules == [r] && r in src.rules && c in r.conds;
    TextMeansRules(src, input, sem);
    SingleDeny(r, c, input, sem, Searched);
    SingleDeny(r, c, input, sem, Intended(truth));
    MisreadIff(c.item, input, sem, truth);
  }

  /**
   A deny rule that compares a value with true, false or null does as intended exactly when the
   value is neither the literal itself nor its text.
   */
  lemma FlagDenyIsIntendedIff(
    src: Source, c: Spaced<Cond>, path: seq<string>, word: string,
    input: Value, sem: Semantics, truth: (string, Value) -> bool)
    requires SourceOk(src) && OneDeny(src, c) && Standard(sem)
    requires c.item.Call? && c.item.name == "eq" && FlagArgs(c.item.args, path, word)
    ensures DoesAsIntended(src, input, sem, truth) <==>
            var found := Lookup(input, path);
            found != Str(word) && !(Present(input, path) && found == Keyword(word).value)
  {
    DenyIsIntendedIff(src, c, input, sem, truth);
    FlagMisreadIff(c.item, path, word, input, sem, truth);
  }

  lemma FlagMisreadIff(
    c: Cond, path: seq<string>, word: string, input: Value, sem: Semantics, truth: (string, Value) -> bool)
    requires c.Call? && c.name == "eq" && FlagArgs(c.args, path, word) && Standard(sem)
    ensures Misread(c, input, sem, truth) <==>
            var found := Lookup(input, path);
            found == Str(word) || (Present(input, path) && found == Keyword(word).value)
  {
    FlagResultChangesIff(c.args, path, word, input, sem);
    assert c.name != "neq" && c.args != [];
  }

  // ----- policies as they are written

  lemma OneDenyText(src: Source, c: Spaced<Cond>)
    requires OneDeny(src, c)
    ensures Render(src) == PackageText(src)
      + ("deny" + src.rules[0].gap + "{" + (c.front + CondText(c.item) + c.back) + "}" + src.rules[0].after)
    ensures BodyText([c]) == c.front + CondText(c.item) + c.back
  {
    var r := src.rules[0];
    var text := c.front + CondText(c.item) + c.back;
    assert src.rules == [r] && [r][1..] == [] && RulesText([]) == "";
    assert CondTexts([c]) == [Spaced(c.front, CondText(c.item), c.back)];
    assert Pieces(CondTexts([c])) == [text];
    assert BodyText([c]) == text;
    assert RulesText([r]) == "deny" + r.gap + "{" + text + "}" + r.after;
  }

  /** What its text decides. */
  lemma OneDenyIsMeant(src: Source, c: Spaced<Cond>, input: Value, sem: Semantics)
    requires OneDeny(src, c) && Around(c) && CondOk(c.item) && CondText(c.item) != ""
    requires LayoutOk(src) && AllSpace(src.rules[0].gap) && AllSpace(src.rules[0].after)
    ensures EvalText(Render(src), input, sem) == !Holds(c.item, input, sem, Searched)
  {
    var r := src.rules[0];
    assert src.rules == [r];
    OneDenyText(src, c);
    TextMeansRules(src, input, sem);
    SingleDeny(r, c, input, sem, Searched);
  }

  lemma ArgTextsOfTwo(args: seq<Spaced<Arg>>, a: Spaced<Arg>, b: Spaced<Arg>)
    requires args == [a, b]
    ensures Inner(args) == (a.front + ArgText(a.item) + a.back) + ([','] + (b.front + ArgText(b.item) + b.back))
  {
    var s, t := a.front + ArgText(a.item) + a.back, b.front + ArgText(b.item) + b.back;
    assert |Pieces(ArgTexts(args))| == 2;
    assert Pieces(ArgTexts(args)) == [s, t];
    assert [s, t][1..] == [t];
    assert Join([t], ',') == t;
    assert Join([s, t], ',') == s + [','] + t;
  }

  /** The text between the braces, without the layout around it. */
  lemma OneDenySpelling(src: Source, c: Spaced<Cond>, before: string, text: string, behind: string)
    requires OneDeny(src, c) && text == CondText(c.item)
    requires before == PackageText(src) + ("deny" + src.rules[0].gap + "{" + c.front)
    requires behind == c.back + "}" + src.rules[0].after
    ensures Render(src) == before + text + behind
  {
    OneDenyText(src, c);
  }

  lemma ToolText(args: seq<Spaced<Arg>>)
    requires args == [Spaced("", Ref(["tool"]), ""), Spaced(" ", Quoted("bad_tool"), "")]
    ensures Inner(args) == "input.tool" + ([','] + (" " + "\"bad_tool\""))
    ensures PathText(["tool"]) == "input.tool"
  {
    ArgTextsOfTwo(args, args[0], args[1]);
    assert Join(["tool"], '.') == "tool";
    assert ArgText(Ref(["tool"])) == "input.tool";
    assert ArgText(Quoted("bad_tool")) == "\"bad_tool\"";
  }

  lemma ToolIsOk(name: string, args: seq<Spaced<Arg>>)
    requires name in BUILTINS
    requires args == [Spaced("", Ref(["tool"]), ""), Spaced(" ", Quoted("bad_tool"), "")]
    ensures CondOk(Call(name, args))
  {
    ToolText(args);
    ToolArgsAreOk();
  }

  lemma ToolArgsAreOk()
    ensures ArgOk(Ref(["tool"])) && ArgOk(Quoted("bad_tool"))
  {
    ToolPathIsOk(["tool"]);
  }

  lemma ToolPathIsOk(path: seq<string>)
    requires path == ["tool"]
    ensures PathOk(path, "(),;}")
  {
    assert Join(path, '.') == "tool";
    assert PathText(path) == "input.tool";
  }

  lemma ToolValues(args: seq<Spaced<Arg>>, input: Value, sem: Semantics)
    requires args == [Spaced("", Ref(["tool"]), ""), Spaced(" ", Quoted("bad_tool"), "")]
    ensures ArgValues(args, input, sem) == [Lookup(input, ["tool"]), Str("bad_tool")]
  {
    var rest := args[1..];
    assert rest == [Spaced(" ", Quoted("bad_tool"), "")];
    assert ArgValues(rest, input, sem) == [Str("bad_tool")];
  }

  /** The spelling of the tests: a denied tool is recognised by eq, and by neq the other way round. */
  lemma ComparisonText(name: string, code: string, input: Value, sem: Semantics)
    requires name == "eq" || name == "neq"
    requires code == "package test\ndeny { " + (name + "(input.tool, \"bad_tool\")") + " }"
    ensures EvalText(code, input, sem) == !sem.apply("eq", [Lookup(input, ["tool"]), Str("bad_tool")])
  {
    var args := [Spaced("", Ref(["tool"]), ""), Spaced(" ", Quoted("bad_tool"), "")];
    ToolIsOk(name, args);
    ToolValues(args, input, sem);
    ComparisonCall(name, args);
    Openings();
    SpelledDeny("test", "package test\ndeny { ", Spaced(" ", Call(name, args), " "), code, input, sem);
  }

  lemma ComparisonCall(name: string, args: seq<Spaced<Arg>>)
    requires args == [Spaced("", Ref(["tool"]), ""), Spaced(" ", Quoted("bad_tool"), "")]
    ensures CondText(Call(name, args)) == name + "(input.tool, \"bad_tool\")"
  {
    ToolText(args);
    ComparisonArgs(Inner(args));
    assert name + "(" + Inner(args) + ")" == name + ("(" + Inner(args) + ")");
  }

  lemma ComparisonArgs(inner: string)
    requires inner == "input.tool" + ([','] + (" " + "\"bad_tool\""))
    ensures "(" + inner + ")" == "(input.tool, \"bad_tool\")"
  {
    assert inner == "input.tool, \"bad_tool\"";
  }

  /** A policy in the spelling of the tests: package line, one deny rule on the next, one space inside its braces. */
  lemma SpelledDeny(name: string, before: string, c: Spaced<Cond>, code: string, input: Value, sem: Semantics)
    requires c.front == " " && c.back == " " && CondOk(c.item) && CondText(c.item) != ""
    requires name != "" && forall ch :: ch in name ==> 'a' <= ch <= 'z'
    requires before == "package " + name + "\ndeny { " && code == before + CondText(c.item) + " }"
    ensures EvalText(code, input, sem) == !Holds(c.item, input, sem, Searched)
  {
    var src := Source("", " ", name, "\n", [Rule(Deny, " ", [c], "")]);
    SpelledFrame(src, c, before);
    OneDenySpelling(src, c, before, CondText(c.item), " }");
    OneDenyIsMeant(src, c, input, sem);
  }

  lemma SpelledFrame(src: Source, c: Spaced<Cond>, before: string)
    requires c.front == " " && c.back == " "
    requires src == Source("", " ", src.name, "\n", [Rule(Deny, " ", [c], "")])
    requires src.name != "" && forall ch :: ch in src.name ==> 'a' <= ch <= 'z'
    requires before == "package " + src.name + "\ndeny { "
    ensures LayoutOk(src) && OneDeny(src, c)
    ensures PackageText(src) + ("deny" + " " + "{" + c.front) == before && c.back + "}" + "" == " }"
  {
    assert PackageText(src) == "package " + src.name + "\n";
    assert "deny" + " " + "{" + c.front == "deny { ";
    NamedLayout(src);
  }

  lemma Openings()
    ensures "package " + "test" + "\ndeny { " == "package test\ndeny { "
    ensures "package " + "net" + "\ndeny { " == "package net\ndeny { "
  {}

  /** A check of a test denies whenever there is a value, a false one too. */
  lemma CheckText(code: string, input: Value, sem: Semantics)
    requires code == "package net\ndeny { " + "input.network_egress" + " }"
    ensures EvalText(code, input, sem) == (Lookup(input, ["network_egress"]) == Null)
    ensures Lookup(input, ["network_egress"]) == Bool(false) ==> !EvalText(code, input, sem)
  {
    EgressIsOk(["network_egress"]);
    Openings();
    SpelledDeny("net", "package net\ndeny { ", Spaced(" ", Check(["network_egress"]), " "), code, input, sem);
  }

  lemma EgressIsOk(path: seq<string>)
    requires path == ["network_egress"]
    ensures PathOk(path, ";}=<>!") && PathText(path) == "input.network_egress"
  {
    assert Join(path, '.') == "network_egress";
    assert PathText(path) == "input.network_egress";
  }

  /** A comparison with true in the same spelling: it denies the text "true" and allows the value. */
  lemma FlagText(code: string, input: Value, sem: Semantics)
    requires code == "package test\ndeny { " + "eq(input.flag, true)" + " }" && Standard(sem)
    ensures EvalText(code, input, sem) == (Lookup(input, ["flag"]) != Str("true"))
    ensures Lookup(input, ["flag"]) == Bool(true) ==> EvalText(code, input, sem)
  {
    var args := [Spaced("", Ref(["flag"]), ""), Spaced(" ", Bare("true"), "")];
    FlagAnswer(args, ["flag"], "true", input, sem);
    FlagSpelling(args, code, input, sem);
  }

  lemma FlagAnswer(args: seq<Spaced<Arg>>, path: seq<string>, word: string, input: Value, sem: Semantics)
    requires FlagArgs(args, path, word) && Standard(sem)
    ensures Holds(Call("eq", args), input, sem, Searched) == (Lookup(input, path) == Str(word))
  {
    FlagValues(args, path, word, input, sem);
    TextIsItself(Lookup(input, path), Str(word));
  }

  lemma FlagSpelling(args: seq<Spaced<Arg>>, code: string, input: Value, sem: Semantics)
    requires code == "package test\ndeny { " + "eq(input.flag, true)" + " }"
    requires args == [Spaced("", Ref(["flag"]), ""), Spaced(" ", Bare("true"), "")]
    ensures EvalText(code, input, sem) == !Holds(Call("eq", args), input, sem, Searched)
  {
    FlagIsOk(args);
    Openings();
    SpelledDeny("test", "package test\ndeny { ", Spaced(" ", Call("eq", args), " "), code, input, sem);
  }

  lemma FlagIsOk(args: seq<Spaced<Arg>>)
    requires args == [Spaced("", Ref(["flag"]), ""), Spaced(" ", Bare("true"), "")]
    ensures CondOk(Call("eq", args)) && CondText(Call("eq", args)) == "eq(input.flag, true)"
  {
    ArgTextsOfTwo(args, args[0], args[1]);
    FlagPathIsOk(["flag"]);
    FlagInner(Inner(args));
    assert BUILTINS[0] == "eq";
  }

  lemma FlagPathIsOk(path: seq<string>)
    requires path == ["flag"]
    ensures PathOk(path, "(),;}") && PathText(path) == "input.flag" && ArgOk(Bare("true"))
  {
    assert Join(path, '.') == "flag";
    assert PathText(path) == "input.flag";
    assert "input."[0] == 'i';
  }

  lemma FlagInner(inner: string)
    requires inner == ("" + "input.flag" + "") + ([','] + (" " + "true" + ""))
    ensures inner != "" && "eq" + "(" + inner + ")" == "eq(input.flag, true)"
  {
    assert inner == "input.flag, true";
  }

  /**
   The built-in session policy compares nothing: it denies exactly the inputs with a field of an
   odd name, so it allows every ordinary input, whatever its session age.
   */
  lemma SessionTimeoutText(code: string, input: Value, sem: Semantics)
    requires code == "package synapticbridge\n\n    deny {\n        " + "input.session_age > 900" + "\n    }\n    "
    ensures EvalText(code, input, sem) == (Lookup(input, ["session_age > 900"]) == Null)
    ensures Ordinary(input) ==> EvalText(code, input, sem)
  {
    var path, op, arg := ["session_age"], Spaced(" ", ">", " "), Bare("900");
    var c := Spaced("\n        ", Infix(path, op, arg), "\n    ");
    SessionTimeoutCondition(path, op, arg);
    InfixIsOneKey(path, op, arg, "session_age > 900");
    SessionTimeoutLayout(c, code, input, sem);
    if Ordinary(input) {
      InfixFindsNothing(path, op, arg, input);
    }
  }

  lemma SessionTimeoutLayout(c: Spaced<Cond>, code: string, input: Value, sem: Semantics)
    requires c.front == "\n        " && c.back == "\n    " && CondOk(c.item) && CondText(c.item) != ""
    requires code == "package synapticbridge\n\n    deny {\n        " + CondText(c.item) + "\n    }\n    "
    ensures EvalText(code, input, sem) == !Holds(c.item, input, sem, Searched)
  {
    var src := Source("", " ", "synapticbridge", "\n\n    ", [Rule(Deny, " ", [c], "\n    ")]);
    var before := "package synapticbridge\n\n    deny {\n        ";
    SessionTimeoutFrame(src, c);
    OneDenySpelling(src, c, before, CondText(c.item), "\n    }\n    ");
    OneDenyIsMeant(src, c, input, sem);
  }

  lemma SessionTimeoutFrame(src: Source, c: Spaced<Cond>)
    requires c.front == "\n        " && c.back == "\n    "
    requires src == Source("", " ", "synapticbridge", "\n\n    ", [Rule(Deny, " ", [c], "\n    ")])
    ensures LayoutOk(src)
    ensures PackageText(src) + ("deny" + " " + "{" + c.front) == "package synapticbridge\n\n    deny {\n        "
    ensures c.back + "}" + "\n    " == "\n    }\n    "
  {
    SessionTimeoutOpening(PackageText(src), c.front);
    assert forall ch :: ch in src.name ==> 'a' <= ch <= 'z';
    NamedLayout(src);
  }

  lemma NamedLayout(src: Source)
    requires AllSpace(src.front) && AllSpace(src.gap) && src.gap != "" && AllSpace(src.tail) && src.tail != ""
    requires src.name != "" && forall c :: c in src.name ==> 'a' <= c <= 'z'
    ensures LayoutOk(src)
  {}

  lemma SessionTimeoutOpening(line: string, front: string)
    requires line == "" + "package" + " " + "synapticbridge" + "\n\n    " && front == "\n        "
    ensures line + ("deny" + " " + "{" + front) == "package synapticbridge\n\n    deny {\n        "
  {
    assert line == "package synapticbridge\n\n    ";
    assert "deny" + " " + "{" + front == "deny {\n        ";
  }

  lemma SessionTimeoutCondition(path: seq<string>, op: Spaced<string>, arg: Arg)
    requires path == ["session_age"] && op == Spaced(" ", ">", " ") && arg == Bare("900")
    ensures CondOk(Infix(path, op, arg)) && CondText(Infix(path, op, arg)) == "input.session_age > 900"
    ensures InfixText(path, op, arg) == "session_age > 900" && '.' !in InfixText(path, op, arg)
  {
    SessionPathIsOk(path);
    SessionComparison(InfixText(path, op, arg));
    InfixIsOk(path, op, arg);
  }

  lemma InfixIsOk(path: seq<string>, op: Spaced<string>, arg: Arg)
    requires PathOk(path, ";}=<>!") && op.item in OPERATORS && Around(op) && Free(ArgText(arg), "[];}")
    requires var text := InfixText(path, op, arg); text != "" && !IsSpace(text[|text| - 1])
    ensures CondOk(Infix(path, op, arg))
  {}

  /** Without a dot in it an infix condition is one key. */
  lemma InfixIsOneKey(path: seq<string>, op: Spaced<string>, arg: Arg, text: string)
    requires text == InfixText(path, op, arg) && '.' !in text
    ensures Split(InfixText(path, op, arg), '.') == [text]
  {
    SplitNone(text, '.');
  }

  lemma SessionComparison(text: string)
    requires text == "session_age" + " " + ">" + " " + "900"
    ensures text == "session_age > 900" && '.' !in text
    ensures "input." + text == "input.session_age > 900"
    ensures text[|text| - 1] == '0'
  {}

  lemma SessionPathIsOk(path: seq<string>)
    requires path == ["session_age"]
    ensures PathOk(path, ";}=<>!")
  {
    assert Join(path, '.') == "session_age";
    assert PathText(path) == "input.session_age";
  }
}
