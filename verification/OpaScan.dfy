/**
 What the engine's searches find in any text, whether or not it is a rendered policy: the package
 line, the rules, the arguments of a call and the keys of a path.
 */
module OpaScan {
  import opened Wrappers
  import opened OpaEngine
  import opened OpaText

  /** The code points that Python counts as white space. */
  const SPACES := [0x9, 0xa, 0xb, 0xc, 0xd, 0x1c, 0x1d, 0x1e, 0x1f, 0x20, 0x85, 0xa0, 0x1680,
                   0x2000, 0x2001, 0x2002, 0x2003, 0x2004, 0x2005, 0x2006, 0x2007, 0x2008, 0x2009, 0x200a,
                   0x2028, 0x2029, 0x202f, 0x205f, 0x3000]

  lemma SpacesAreListed(c: char)
    ensures IsSpace(c) <==> c as int in SPACES
  {}

  lemma {:induction false} StripLeftStops(t: string)
    ensures StripLeft(t) != "" ==> !IsSpace(StripLeft(t)[0])
  {
    if t != "" && IsSpace(t[0]) {
      StripLeftStops(t[1..]);
    }
  }

  // ----- the package line

  /** The word package, white space, and something behind it. */
  ghost predicate PackageSplit(t: string, front: string, gap: string, after: string) {
    && t == front + ("package" + gap + after)
    && gap != "" && AllSpace(gap) && after != "" && !IsSpace(after[0])
  }

  lemma PackageHere(t: string) returns (gap: string, after: string)
    requires StartsWith(t, "package") && |t| > 7 && IsSpace(t[7]) && StripLeft(t[7..]) != ""
    ensures PackageSplit(t, "", gap, after)
  {
    gap := LeftSpace(t[7..]);
    after := StripLeft(t[7..]);
    StripLeftStops(t[7..]);
    assert t == t[..7] + t[7..] && t[..7] == "package";
    assert t[7..] == gap + after;
  }

  lemma {:induction false} PackageSomewhere(t: string) returns (front: string, gap: string, after: string)
    requires HasPackage(t)
    ensures PackageSplit(t, front, gap, after)
  {
    if StartsWith(t, "package") && |t| > 7 && IsSpace(t[7]) && StripLeft(t[7..]) != "" {
      front := "";
      gap, after := PackageHere(t);
    } else {
      var rest: string;
      rest, gap, after := PackageSomewhere(t[1..]);
      front := [t[0]] + rest;
      assert t == [t[0]] + t[1..];
      assert front + ("package" + gap + after) == [t[0]] + (rest + ("package" + gap + after));
    }
  }

  /** A text has a package line exactly when it splits like that somewhere. */
  lemma PackageIff(t: string)
    ensures HasPackage(t) <==> exists front, gap, after :: PackageSplit(t, front, gap, after)
  {
    if front, gap, after :| PackageSplit(t, front, gap, after) {
      PackageIsFound(front, gap, after);
    }
    if HasPackage(t) {
      var front, gap, after := PackageSomewhere(t);
    }
  }

  /** A text without a package line allows everything, whatever rules it holds. */
  lemma UnpackagedIsAllowed(t: string, input: Value, sem: Semantics)
    requires forall front, gap, after :: !PackageSplit(t, front, gap, after)
    ensures EvalText(t, input, sem)
  {
    PackageIff(t);
  }

  /** Such as the one of the tests, which would deny if it had one. */
  lemma NoPackageText(input: Value, sem: Semantics)
    ensures EvalText("deny { true }", input, sem)
  {
    var t := "deny { true }";
    assert 'p' !in t;
    forall front, gap, after ensures !PackageSplit(t, front, gap, after) {
      PackageHasLetter(t, front, gap, after);
    }
    UnpackagedIsAllowed(t, input, sem);
  }

  lemma PackageHasLetter(t: string, front: string, gap: string, after: string)
    ensures PackageSplit(t, front, gap, after) ==> 'p' in t
  {
    assert "package"[0] == 'p';
    assert PackageSplit(t, front, gap, after) ==> t[|front|] == 'p';
  }

  // ----- the rules

  lemma OneMore(first: char, rest: string, a: string, c: char)
    requires |a| < |rest| && rest == a + [c] + rest[|a| + 1..]
    ensures [first] + rest == [first] + a + [c] + ([first] + rest)[|a| + 2..]
  {}

  lemma {:induction false} BeforeSplits(t: string, c: char)
    ensures Before(t, c) == None <==> c !in t
    ensures Before(t, c).Some? ==>
              var a := Before(t, c).value; c !in a && t == a + [c] + t[|a| + 1..]
  {
    if t != "" && t[0] != c {
      var rest := t[1..];
      BeforeSplits(rest, c);
      assert t == [t[0]] + rest;
      assert Before(t, c) == if Before(rest, c).Some? then Some([t[0]] + Before(rest, c).value) else None;
      if Before(rest, c).Some? {
        OneMore(t[0], rest, Before(rest, c).value, c);
      }
    }
  }

  /** A rule: its keyword, white space, braces around a text that is not empty and closes none itself. */
  ghost predicate RuleSplit(t: string, gap: string, f: Found) {
    && t == f.kind + gap + "{" + f.body + "}" + f.rest
    && AllSpace(gap) && f.body != "" && '}' !in f.body
  }

  /** A rule starts at the front of a text exactly when the text splits like that. */
  lemma RuleWithIff(t: string, keyword: string, f: Found)
    ensures RuleWith(t, keyword) == Some(f) <==> f.kind == keyword && exists gap :: RuleSplit(t, gap, f)
  {
    if f.kind == keyword {
      if gap :| RuleSplit(t, gap, f) {
        KeywordIsFound(keyword, gap, f.body, f.rest);
      }
    }
    if RuleWith(t, keyword) == Some(f) {
      var gap := RuleHere(t, keyword, f);
    }
  }

  lemma RuleHere(t: string, keyword: string, f: Found) returns (gap: string)
    requires RuleWith(t, keyword) == Some(f)
    ensures f.kind == keyword && RuleSplit(t, gap, f)
  {
    var behind := t[|keyword|..];
    gap := LeftSpace(behind);
    BlockSplits(StripLeft(behind), f);
    PutTogether(keyword, gap, "{" + f.body + "}" + f.rest);
    assert t == keyword + behind;
    PutTogether(keyword + gap, "{" + f.body + "}", f.rest);
    PutTogether(keyword + gap, "{" + f.body, "}");
    PutTogether(keyword + gap, "{", f.body);
  }

  lemma PutTogether(a: string, b: string, c: string)
    ensures a + (b + c) == a + b + c
  {}

  lemma BlockSplits(block: string, f: Found)
    requires block != "" && block[0] == '{' && Before(block[1..], '}') == Some(f.body)
    requires f.rest == block[|f.body| + 2..]
    ensures '}' !in f.body && block == "{" + f.body + "}" + f.rest
  {
    BeforeSplits(block[1..], '}');
    assert block[1..][|f.body| + 1..] == f.rest;
    assert block == "{" + block[1..];
  }

  /** Some rule starts at the front of the text. */
  ghost predicate StartsRule(t: string, gap: string, f: Found) {
    f.kind in ["deny", "allow", "violation"] && RuleSplit(t, gap, f)
  }

  /** It is unique, so that the order in which the keywords are tried does not matter. */
  lemma RuleAtIff(t: string, f: Found)
    ensures RuleAt(t) == Some(f) <==> exists gap :: StartsRule(t, gap, f)
  {
    RuleWithIff(t, "deny", f);
    RuleWithIff(t, "allow", f);
    RuleWithIff(t, "violation", f);
    OneKeyword(t);
    if RuleAt(t) == Some(f) {
      var gap :| RuleSplit(t, gap, f);
      assert StartsRule(t, gap, f);
    }
    if gap :| StartsRule(t, gap, f) {
      assert RuleSplit(t, gap, f);
    }
  }

  lemma OneKeyword(t: string)
    ensures RuleWith(t, "deny").Some? ==> RuleWith(t, "allow") == None && RuleWith(t, "violation") == None
    ensures RuleWith(t, "allow").Some? ==> RuleWith(t, "deny") == None && RuleWith(t, "violation") == None
    ensures RuleWith(t, "violation").Some? ==> RuleWith(t, "deny") == None && RuleWith(t, "allow") == None
  {
    assert "deny"[0] == 'd' && "allow"[0] == 'a' && "violation"[0] == 'v';
  }

  /** The scan finds nothing exactly when no rule starts anywhere; else it takes the leftmost and goes on behind it. */
  lemma {:induction false} ScanIsLeftmost(t: string) returns (i: nat)
    ensures forall j :: 0 <= j < i && j <= |t| ==> RuleAt(t[j..]) == None
    ensures if Scan(t) == [] then i == |t| + 1
            else i <= |t| && RuleAt(t[i..]).Some?
                 && var f := RuleAt(t[i..]).value; Scan(t) == [Block(f.kind, f.body)] + Scan(f.rest)
  {
    assert t[0..] == t;
    if t == "" {
      i := 1;
    } else if RuleAt(t).Some? {
      i := 0;
    } else {
      var k := ScanIsLeftmost(t[1..]);
      i := k + 1;
      assert forall j :: 1 <= j <= |t| ==> t[1..][j - 1..] == t[j..];
    }
  }

  // ----- the arguments of a call

  /** `name(`, a text that is not empty and has no ')' in it, and ')', from position i on. */
  ghost predicate CallAt(t: string, i: nat, name: string, args: string) {
    && i <= |t| && StartsWith(t[i..], name + "(" + args + ")") && args != "" && ')' !in args
  }

  lemma {:induction false} ArgumentsIff(t: string, name: string)
    ensures Arguments(t, name) == None <==> forall i: nat, args :: !CallAt(t, i, name, args)
    ensures Arguments(t, name).Some? ==>
              exists i: nat :: CallAt(t, i, name, Arguments(t, name).value)
                               && forall j: nat, args :: j < i ==> !CallAt(t, j, name, args)
  {
    var here := Here(t, name + "(");
    forall args ensures CallAt(t, 0, name, args) <==> here == Some(args) && args != "" {
      ArgumentsHere(t, name, args);
    }
    if here.Some? && here.value != "" {
      assert CallAt(t, 0, name, here.value);
    } else if t != "" {
      ArgumentsIff(t[1..], name);
      forall i: nat, args ensures CallAt(t, i, name, args) <==> i > 0 && CallAt(t[1..], i - 1, name, args) {
        assert 0 < i <= |t| ==> t[1..][i - 1..] == t[i..];
      }
      if Arguments(t, name).Some? {
        var k: nat :| CallAt(t[1..], k, name, Arguments(t, name).value)
                      && forall j: nat, args :: j < k ==> !CallAt(t[1..], j, name, args);
        assert CallAt(t, k + 1, name, Arguments(t, name).value);
      }
    }
  }

  /** What is found at the front of the text, if it starts with `open`. */
  function Here(t: string, open: string): Option<string> {
    if StartsWith(t, open) then Before(t[|open|..], ')') else None
  }

  lemma FoundHere(t: string, open: string, args: string)
    requires StartsWith(t, open + args + ")") && ')' !in args
    ensures Here(t, open) == Some(args)
  {
    var n := |open| + |args| + 1;
    var rest := t[n..];
    assert t == (open + args + ")") + rest;
    assert t == open + (args + ")" + rest);
    assert t[|open|..] == args + ")" + rest;
    BeforeFirst(args, ')', rest);
  }

  lemma HereIsFound(t: string, open: string, args: string)
    requires Here(t, open) == Some(args)
    ensures StartsWith(t, open + args + ")") && ')' !in args
  {
    BeforeSplits(t[|open|..], ')');
    FrontOfThree(t, open, args, t[|open|..][|args| + 1..]);
  }

  lemma FrontOfThree(t: string, open: string, args: string, rest: string)
    requires open <= t && t[|open|..] == args + [')'] + rest
    ensures StartsWith(t, open + args + ")")
  {
    assert t == open + t[|open|..];
    assert t == (open + args + ")") + rest;
  }

  lemma ArgumentsHere(t: string, name: string, args: string)
    ensures CallAt(t, 0, name, args) <==> Here(t, name + "(") == Some(args) && args != ""
  {
    var open := name + "(";
    assert t[0..] == t;
    if CallAt(t, 0, name, args) { FoundHere(t, open, args); }
    if Here(t, open) == Some(args) { HereIsFound(t, open, args); }
  }

  // ----- the builtins

  /** Each of the engine's thirteen names, when called, is dispatched to itself, except that neq goes to eq. */
  lemma CallsAreDispatched(name: string, args: string)
    requires '(' !in args
    requires || name in {"eq", "neq", "gt", "gte", "lt", "lte", "and", "or", "not"}
             || name in {"contains", "startswith", "endswith", "glob_match"}
    ensures Dispatch(name + "(" + args + ")", BUILTINS) == Some(if name == "neq" then "eq" else name)
  {
    assert BUILTINS[0] == "eq" && BUILTINS[1] == "neq" && BUILTINS[2] == "gt" && BUILTINS[3] == "gte";
    assert BUILTINS[4] == "lt" && BUILTINS[5] == "lte" && BUILTINS[6] == "and" && BUILTINS[7] == "or";
    assert BUILTINS[8] == "not" && BUILTINS[9] == "contains" && BUILTINS[10] == "startswith";
    assert BUILTINS[11] == "endswith" && BUILTINS[12] == "glob_match";
    DispatchIsEffective(name, args);
  }

  // ----- bracketed keys

  datatype Step = Dotted(key: string) | Indexed(key: string)

  function StepsText(steps: seq<Step>): string {
    if steps == [] then ""
    else (match steps[0] case Dotted(key) => "." + key case Indexed(key) => "[" + key + "]") + StepsText(steps[1..])
  }

  function Keys(steps: seq<Step>): seq<string> {
    if steps == [] then [] else [steps[0].key] + Keys(steps[1..])
  }

  lemma {:induction false} NormalizeParts(a: string, b: string)
    ensures Normalize(a + b) == Normalize(a) + Normalize(b)
  {
    if a == "" {
      assert a + b == b;
    } else {
      assert (a + b)[1..] == a[1..] + b;
      NormalizeParts(a[1..], b);
    }
  }

  /** Keys in brackets are looked up like keys behind dots. */
  lemma {:induction false} BracketsAreDots(front: string, steps: seq<Step>)
    requires Free(front, ".[]") && forall s :: s in steps ==> Free(s.key, ".[]")
    ensures Split(Normalize(front + StepsText(steps)), '.') == [front] + Keys(steps)
    decreases |steps|
  {
    NormalizeParts(front, StepsText(steps));
    NormalizePlain(front);
    if steps == [] {
      assert front + "" == front;
      SplitNone(front, '.');
    } else {
      var first, rest := steps[0], steps[1..];
      assert steps == [first] + rest && first in steps;
      assert forall s :: s in rest ==> s in steps;
      StepIsDot(first, rest);
      NormalizeParts(first.key, StepsText(rest));
      NormalizePlain(first.key);
      BracketsAreDots(first.key, rest);
      var behind := Normalize(first.key + StepsText(rest));
      assert front + (['.'] + behind) == front + ['.'] + behind;
      SplitOne(front, '.', behind);
    }
  }

  lemma StepIsDot(first: Step, rest: seq<Step>)
    requires Free(first.key, ".[]")
    ensures Normalize(StepsText([first] + rest)) == ['.'] + Normalize(first.key + StepsText(rest))
  {
    var steps := [first] + rest;
    assert steps[1..] == rest;
    NormalizeParts(first.key, StepsText(rest));
    match first {
      case Dotted(key) =>
        NormalizeParts("." + key, StepsText(rest));
        DotIsDot(key);
      case Indexed(key) =>
        NormalizeParts("[" + key + "]", StepsText(rest));
        BracketIsDot(key);
    }
    NormalizePlain(first.key);
    PutTogether(['.'], first.key, Normalize(StepsText(rest)));
  }

  lemma DotIsDot(key: string)
    requires Free(key, ".[]")
    ensures Normalize("." + key) == ['.'] + key
  {
    NormalizePlain(key);
    assert ("." + key)[1..] == key;
  }

  lemma BracketIsDot(key: string)
    requires Free(key, ".[]")
    ensures Normalize("[" + key + "]") == ['.'] + key
  {
    NormalizeParts("[" + key, "]");
    NormalizePlain(key);
    assert ("[" + key)[1..] == key && "]"[1..] == "";
  }

  /** So a path finds the same value in either spelling. */
  lemma BracketedIsLookup(input: Value, steps: seq<Step>)
    requires steps != [] && forall s :: s in steps ==> Free(s.key, ".[]")
    ensures GetNested(input, "input" + StepsText(steps)) == Lookup(input, Keys(steps))
  {
    BracketsAreDots("input", steps);
    assert (["input"] + Keys(steps))[1..] == Keys(steps);
    FollowIsLookup(input, Keys(steps));
  }

  /** A single quotation mark starts and ends itself, and stands for the empty text. */
  lemma LoneQuoteIsEmpty(input: Value, sem: Semantics)
    ensures Argument(input, "\"", sem) == Str("")
  {
    assert "input."[0] == 'i';
  }
}
