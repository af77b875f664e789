/**
 The policy engine: a scanner over policy text and an evaluator of the rule
 bodies it finds. Rendering a rule list as text and evaluating that text gives
 the direct meaning of the list.
 */
module OpaEngine {
  import opened Wrappers

  datatype Value = Null | Bool(b: bool) | Num(r: real) | Str(s: string) | Object(fields: map<string, Value>)

  // ----- text primitives

  /** Python's str.isspace on one character. */
  predicate IsSpace(c: char) {
    var n := c as int;
    9 <= n <= 13 || 28 <= n <= 32 || n == 0x85 || n == 0xa0 || n == 0x1680
    || 0x2000 <= n <= 0x200a || n == 0x2028 || n == 0x2029 || n == 0x202f || n == 0x205f || n == 0x3000
  }

  function StripLeft(t: string): string {
    if t != "" && IsSpace(t[0]) then StripLeft(t[1..]) else t
  }

  function StripRight(t: string): string {
    if t != "" && IsSpace(t[|t| - 1]) then StripRight(t[..|t| - 1]) else t
  }

  function Strip(t: string): string {
    StripRight(StripLeft(t))
  }

  function Split(t: string, sep: char): (pieces: seq<string>)
    ensures pieces != []
  {
    if t == "" then [""] else
      var rest := Split(t[1..], sep);
      if t[0] == sep then [""] + rest else [[t[0]] + rest[0]] + rest[1..]
  }

  function StripEach(pieces: seq<string>): seq<string> {
    if pieces == [] then [] else [Strip(pieces[0])] + StripEach(pieces[1..])
  }

  function NonEmpty(pieces: seq<string>): seq<string> {
    if pieces == [] then [] else
      (if pieces[0] == "" then [] else [pieces[0]]) + NonEmpty(pieces[1..])
  }

  predicate StartsWith(t: string, prefix: string) {
    prefix <= t
  }

  predicate EndsWith(t: string, suffix: string) {
    |suffix| <= |t| && t[|t| - |suffix|..] == suffix
  }

  predicate Contains(t: string, part: string) {
    StartsWith(t, part) || (t != "" && Contains(t[1..], part))
  }

  /** What comes before the first occurrence of `c`; None when there is none. */
  function Before(t: string, c: char): (r: Option<string>)
    ensures r.Some? ==> |r.value| < |t|
  {
    if t == "" then None
    else if t[0] == c then Some("")
    else match Before(t[1..], c)
      case None => None
      case Some(rest) => Some([t[0]] + rest)
  }

  // ----- the scanner

  datatype Found = Found(kind: string, body: string, rest: string)

  /** A rule that starts here with this keyword: keyword, spaces, '{', a nonempty body without '}', '}'. */
  function RuleWith(t: string, keyword: string): (r: Option<Found>)
    ensures r.Some? && keyword != "" ==> |r.value.rest| < |t|
  {
    if !StartsWith(t, keyword) then None else
      var block := StripLeft(t[|keyword|..]);
      StripLeftShortens(t[|keyword|..]);
      if block == "" || block[0] != '{' then None else
        match Before(block[1..], '}')
        case None => None
        case Some(body) => if body == "" then None else Some(Found(keyword, body, block[|body| + 2..]))
  }

  function RuleAt(t: string): (r: Option<Found>)
    ensures r.Some? ==> |r.value.rest| < |t|
  {
    if RuleWith(t, "deny").Some? then RuleWith(t, "deny")
    else if RuleWith(t, "allow").Some? then RuleWith(t, "allow")
    else RuleWith(t, "violation")
  }

  datatype Block = Block(kind: string, body: string)

  /** All rules of the text, left to right without overlap. */
  function Scan(t: string): seq<Block>
    decreases |t|
  {
    if t == "" then [] else
      match RuleAt(t)
      case Some(f) => [Block(f.kind, f.body)] + Scan(f.rest)
      case None => Scan(t[1..])
  }

  predicate HasPackage(t: string) {
    (StartsWith(t, "package") && |t| > 7 && IsSpace(t[7]) && StripLeft(t[7..]) != "")
    || (t != "" && HasPackage(t[1..]))
  }

  lemma {:induction false} StripLeftShortens(t: string)
    ensures |StripLeft(t)| <= |t|
  {
    if t != "" && IsSpace(t[0]) {
      StripLeftShortens(t[1..]);
    }
  }

  // ----- the evaluator

  const BUILTINS := ["eq", "neq", "gt", "gte", "lt", "lte", "and", "or", "not",
                     "contains", "startswith", "endswith", "glob_match"]

  /** The builtin functions, exceptions counted as false, and the reading of a bare literal. */
  datatype Semantics = Semantics(apply: (string, seq<Value>) -> bool, literal: string -> Value)

  function Normalize(path: string): string {
    if path == "" then "" else
      (if path[0] == '[' then "." else if path[0] == ']' then "" else [path[0]]) + Normalize(path[1..])
  }

  function Follow(current: Value, keys: seq<string>): Value {
    if keys == [] then current
    else if !current.Object? || keys[0] !in current.fields then Null
    else Follow(current.fields[keys[0]], keys[1..])
  }

  function GetNested(input: Value, path: string): Value {
    Follow(Object(map["input" := input]), Split(Normalize(path), '.'))
  }

  /** The first builtin, in table order, whose name and '(' occur in the condition. */
  function Dispatch(condition: string, names: seq<string>): Option<string> {
    if names == [] then None
    else if Contains(condition, names[0] + "(") then Some(names[0])
    else Dispatch(condition, names[1..])
  }

  /** The text between `name(` and the next ')', if not empty, at its first such occurrence. */
  function Arguments(t: string, name: string): Option<string> {
    var open := name + "(";
    var here := if StartsWith(t, open) then Before(t[|open|..], ')') else None;
    if here.Some? && here.value != "" then here
    else if t == "" then None
    else Arguments(t[1..], name)
  }

  function Argument(input: Value, arg: string, sem: Semantics): Value {
    if StartsWith(arg, "input.") then GetNested(input, arg)
    else if StartsWith(arg, "\"") && EndsWith(arg, "\"") then
      if |arg| >= 2 then Str(arg[1..|arg| - 1]) else Str("")
    else sem.literal(arg)
  }

  function ArgumentList(input: Value, args: seq<string>, sem: Semantics): seq<Value> {
    if args == [] then [] else [Argument(input, args[0], sem)] + ArgumentList(input, args[1..], sem)
  }

  lemma {:induction false} ArgumentListAt(input: Value, args: seq<string>, sem: Semantics)
    ensures |ArgumentList(input, args, sem)| == |args|
    ensures forall i :: 0 <= i < |args| ==> ArgumentList(input, args, sem)[i] == Argument(input, args[i], sem)
  {
    if args != [] {
      ArgumentListAt(input, args[1..], sem);
    }
  }

  function EvalBuiltin(condition: string, name: string, input: Value, sem: Semantics): bool {
    match Arguments(condition, name)
    case None => true
    case Some(args) => sem.apply(name, ArgumentList(input, StripEach(Split(args, ',')), sem))
  }

  function EvalCondition(text: string, input: Value, sem: Semantics): bool {
    var condition := Strip(text);
    if StartsWith(condition, "input.") then GetNested(input, condition) != Null else
      match Dispatch(condition, BUILTINS)
      case None => true
      case Some(name) => EvalBuiltin(condition, name, input, sem)
  }

  function EvalAll(conditions: seq<string>, input: Value, sem: Semantics): bool {
    conditions == [] || (EvalCondition(conditions[0], input, sem) && EvalAll(conditions[1..], input, sem))
  }

  function EvalRule(body: string, input: Value, sem: Semantics): bool {
    EvalAll(NonEmpty(StripEach(Split(Strip(body), ';'))), input, sem)
  }

  function EvalBlocks(blocks: seq<Block>, input: Value, sem: Semantics): bool {
    if blocks == [] then true
    else if EvalRule(blocks[0].body, input, sem) && blocks[0].kind == "deny" then false
    else if EvalRule(blocks[0].body, input, sem) && blocks[0].kind == "allow" then true
    else EvalBlocks(blocks[1..], input, sem)
  }

  function EvalText(code: string, input: Value, sem: Semantics): bool {
    !HasPackage(code) || EvalBlocks(Scan(code), input, sem)
  }

  datatype Policy = Policy(rego: string, allowEffect: bool, enabled: bool)

  class OPAPolicyEngine {
    const sem: Semantics

    constructor (sem: Semantics)
      ensures this.sem == sem
    {
      this.sem := sem;
    }

    method Evaluate(policy: Policy, input: Value) returns (allowed: bool)
      ensures allowed == (!policy.enabled || policy.allowEffect || EvalText(policy.rego, input, sem))
    {
      if !policy.enabled || policy.allowEffect {
        return true;
      }
      allowed := EvaluateRego(policy.rego, input);
    }

    method EvaluateRego(code: string, input: Value) returns (allowed: bool)
      ensures allowed == EvalText(code, input, sem)
    {
      if !HasPackage(code) {
        return true;
      }
      var rules := Scan(code);
      for i := 0 to |rules|
        invariant EvalBlocks(rules, input, sem) == EvalBlocks(rules[i..], input, sem)
      {
        var fires := EvaluateRule(rules[i].body, input);
        if fires {
          if rules[i].kind == "deny" {
            return false;
          } else if rules[i].kind == "allow" {
            return true;
          }
        }
      }
      return true;
    }

    method EvaluateRule(body: string, input: Value) returns (fires: bool)
      ensures fires == EvalRule(body, input, sem)
    {
      var conditions := NonEmpty(StripEach(Split(Strip(body), ';')));
      for i := 0 to |conditions|
        invariant EvalAll(conditions, input, sem) == EvalAll(conditions[i..], input, sem)
      {
        var result := EvaluateCondition(conditions[i], input);
        if !result {
          return false;
        }
      }
      return true;
    }

    method EvaluateCondition(text: string, input: Value) returns (result: bool)
      ensures result == EvalCondition(text, input, sem)
    {
      var condition := Strip(text);
      if StartsWith(condition, "input.") {
        var value := Nested(input, condition);
        return value != Null;
      }
      for i := 0 to |BUILTINS|
        invariant Dispatch(condition, BUILTINS) == Dispatch(condition, BUILTINS[i..])
      {
        if Contains(condition, BUILTINS[i] + "(") {
          result := EvaluateBuiltin(condition, BUILTINS[i], input);
          return;
        }
      }
      return true;
    }

    method EvaluateBuiltin(condition: string, name: string, input: Value) returns (result: bool)
      ensures result == EvalBuiltin(condition, name, input, sem)
    {
      var found := Arguments(condition, name);
      if found == None {
        return true;
      }
      var values := EvaluateArguments(StripEach(Split(found.value, ',')), input);
      return sem.apply(name, values);
    }

    method EvaluateArguments(args: seq<string>, input: Value) returns (values: seq<Value>)
      ensures values == ArgumentList(input, args, sem)
    {
      values := [];
      for i := 0 to |args|
        invariant |values| == i
        invariant forall j :: 0 <= j < i ==> values[j] == Argument(input, args[j], sem)
      {
        values := values + [Argument(input, args[i], sem)];
      }
      ArgumentListAt(input, args, sem);
    }

    method Nested(input: Value, path: string) returns (current: Value)
      ensures current == GetNested(input, path)
    {
      var keys := Split(Normalize(path), '.');
      current := Object(map["input" := input]);
      for i := 0 to |keys|
        invariant GetNested(input, path) == Follow(current, keys[i..])
      {
        if !current.Object? || keys[i] !in current.fields {
          return Null;
        }
        current := current.fields[keys[i]];
      }
    }
  }
}
