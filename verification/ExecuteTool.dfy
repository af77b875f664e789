/**
 The execute-tool command: session and registry checks, the policy gate, the
 learned redirect, the run and its audit. Every port may fail; a failed port
 call is `Raised`.
 */
module ExecuteTool {
  import opened Vectors
  import opened Wrappers
  import opened Correction

  datatype Attempt<+T> = Ok(value: T) | Raised(error: string)

  datatype Scope = ToolScope | SessionScope | AgentScope | NetworkScope
  datatype Policy = Policy(id: string, scope: Scope)
  datatype Session = Session(agentId: string, active: bool)

  datatype Command = Command(sessionId: string, tool: Tool)

  /** The policy engine's answer on a policy, in the context of a command for this tool. */
  type PolicyPort = (Policy, Tool) -> Attempt<bool>

  /** What each port answers during one command. */
  datatype Ports = Ports(
    session: Attempt<Option<Session>>,
    lookup: Tool -> Attempt<bool>,
    policies: Attempt<seq<Policy>>,
    evaluate: PolicyPort,
    run: Tool -> Attempt<string>,
    learning: Learning)

  /** The ports of the correction learning engine; `lookup` is the registry call on the suggested tool. */
  datatype Learning = Learning(
    available: bool,
    embedding: Attempt<Vector>,
    patterns: Attempt<seq<CorrectionPattern>>,
    score: CorrectionPattern -> real,
    lookup: Tool -> Attempt<bool>)

  datatype Event =
    | PolicyViolation(sessionId: string, agentId: string, policyId: string, tool: Tool)
    | Interception(original: Tool, suggested: Tool, confidence: real, pattern: CorrectionPattern,
                   shadow: bool, applied: bool)
    | ToolCalled(sessionId: string, agentId: string, tool: Tool, wasCorrected: bool, confidence: real)

  datatype Outcome =
    | Returned(result: string)
    | SessionNotFound
    | SessionExpired
    | ToolNotFound
    | PolicyDenied(policyId: string)
    | PortFailed(error: string)

  /** The audit log, the tools handed to the execution port, and the audit writes attempted so far. */
  datatype World = World(events: seq<Event>, ran: seq<Tool>, writes: nat)

  const CLE_CONFIDENCE_THRESHOLD := 0.7

  // ----- what the command should do

  function Gated(p: Policy): bool {
    p.scope == ToolScope || p.scope == SessionScope
  }

  /** The first gated policy that does not answer true. */
  function FirstStop(policies: seq<Policy>, tool: Tool, evaluate: PolicyPort): Option<Policy> {
    if policies == [] then None
    else if Gated(policies[0]) && evaluate(policies[0], tool) != Ok(true) then Some(policies[0])
    else FirstStop(policies[1..], tool, evaluate)
  }

  /** The first of the first n patterns with the highest positive score. */
  function Best(patterns: seq<CorrectionPattern>, score: CorrectionPattern -> real, n: nat): Option<CorrectionPattern>
    requires n <= |patterns|
  {
    if n == 0 then None else
      var best, p := Best(patterns, score, n - 1), patterns[n - 1];
      if score(p) > ScoreOf(best, score) then Some(p) else best
  }

  function ScoreOf(p: Option<CorrectionPattern>, score: CorrectionPattern -> real): real {
    if p.Some? then score(p.value) else 0.0
  }

  /** The redirect the learning engine asks for, as the event it writes; None when it has none or fails. */
  function Suggestion(cmd: Command, l: Learning, shadow: bool): (s: Option<Event>)
    ensures s.Some? ==> s.value.Interception?
  {
    if !l.available || l.embedding.Raised? || l.patterns.Raised? then None else
      var best := Best(l.patterns.value, l.score, |l.patterns.value|);
      if best == None || l.score(best.value) < CLE_CONFIDENCE_THRESHOLD || best.value.correctedTools == [] then None
      else
        var suggested, confidence := best.value.correctedTools[0], l.score(best.value);
        if shadow then Some(Interception(cmd.tool, suggested, confidence, best.value, true, false))
        else match l.lookup(suggested)
          case Ok(found) => Some(Interception(cmd.tool, suggested, confidence, best.value, false, found))
          case Raised(_) => None
  }

  function Write(w: World, e: Event, accepts: nat -> bool): World {
    w.(events := if accepts(w.writes) then w.events + [e] else w.events, writes := w.writes + 1)
  }

  function Tell(s: Option<Event>, w: World, accepts: nat -> bool): World {
    if s.Some? then Write(w, s.value, accepts) else w
  }

  /** The chosen tool is run and its call recorded. */
  function RunTold(cmd: Command, agentId: string, ports: Ports, s: Option<Event>, told: World, accepts: nat -> bool)
    : (Outcome, World)
    requires s.Some? ==> s.value.Interception?
  {
    var corrected := s.Some? && s.value.applied;
    var tool := if corrected then s.value.suggested else cmd.tool;
    var ran := told.(ran := told.ran + [tool]);
    match ports.run(tool)
    case Raised(error) => (PortFailed(error), ran)
    case Ok(result) =>
      var call := ToolCalled(cmd.sessionId, agentId, tool, corrected, if corrected then s.value.confidence else 0.0);
      (if accepts(ran.writes) then Returned(result) else PortFailed("audit"), Write(ran, call, accepts))
  }

  /** After the gate: the interception is written, then the tool runs. */
  function RunGated(cmd: Command, agentId: string, ports: Ports, s: Option<Event>, w: World, accepts: nat -> bool)
    : (Outcome, World)
    requires s.Some? ==> s.value.Interception?
  {
    RunTold(cmd, agentId, ports, s, Tell(s, w, accepts), accepts)
  }

  function Perform(cmd: Command, ports: Ports, shadow: bool, w: World, accepts: nat -> bool): (Outcome, World) {
    match ports.session
    case Raised(error) => (PortFailed(error), w)
    case Ok(None) => (SessionNotFound, w)
    case Ok(Some(session)) =>
      if !session.active then (SessionExpired, w) else
      match ports.lookup(cmd.tool)
      case Raised(error) => (PortFailed(error), w)
      case Ok(false) => (ToolNotFound, w)
      case Ok(true) =>
        match ports.policies
        case Raised(error) => (PortFailed(error), w)
        case Ok(policies) =>
          match FirstStop(policies, cmd.tool, ports.evaluate)
          case None => RunGated(cmd, session.agentId, ports, Suggestion(cmd, ports.learning, shadow), w, accepts)
          case Some(p) =>
            match ports.evaluate(p, cmd.tool)
            case Raised(error) => (PortFailed(error), w)
            case Ok(_) =>
              (if accepts(w.writes) then PolicyDenied(p.id) else PortFailed("audit"),
               Write(w, PolicyViolation(cmd.sessionId, session.agentId, p.id, cmd.tool), accepts))
  }

  // ----- the handler

  class Environment {
    const accepts: nat -> bool   // which audit writes succeed
    var events: seq<Event>
    var ran: seq<Tool>
    var writes: nat

    ghost function Now(): World
      reads this
    {
      World(events, ran, writes)
    }

    constructor (accepts: nat -> bool)
      ensures this.accepts == accepts && Now() == World([], [], 0)
    {
      this.accepts := accepts;
      events, ran, writes := [], [], 0;
    }

    method WriteEvent(e: Event) returns (ok: bool)
      modifies this
      ensures ok == accepts(old(writes)) && Now() == Write(old(Now()), e, accepts)
    {
      ok := accepts(writes);
      writes := writes + 1;
      if ok {
        events := events + [e];
      }
    }

    method CheckPolicies(policies: seq<Policy>, tool: Tool, evaluate: PolicyPort) returns (stop: Option<Policy>)
      ensures stop == FirstStop(policies, tool, evaluate)
    {
      for i := 0 to |policies|
        invariant FirstStop(policies, tool, evaluate) == FirstStop(policies[i..], tool, evaluate)
      {
        if Gated(policies[i]) && evaluate(policies[i], tool) != Ok(true) {
          return Some(policies[i]);
        }
      }
      return None;
    }

    /** Choose the tool to run; whatever fails in here is swallowed. */
    method Redirect(cmd: Command, l: Learning, shadow: bool)
      returns (tool: Tool, wasCorrected: bool, confidence: real)
      modifies this
      ensures var s := Suggestion(cmd, l, shadow);
              && Now() == (if s.Some? then Write(old(Now()), s.value, accepts) else old(Now()))
              && wasCorrected == (s.Some? && s.value.applied)
              && tool == (if wasCorrected then s.value.suggested else cmd.tool)
              && confidence == (if wasCorrected then s.value.confidence else 0.0)
    {
      tool, wasCorrected, confidence := cmd.tool, false, 0.0;
      if !l.available || l.embedding.Raised? || l.patterns.Raised? {
        return;
      }
      var patterns := l.patterns.value;
      var best: Option<CorrectionPattern>, similarity := None, 0.0;
      for i := 0 to |patterns|
        invariant best == Best(patterns, l.score, i) && similarity == ScoreOf(best, l.score)
      {
        if l.score(patterns[i]) > similarity {
          similarity := l.score(patterns[i]);
          best := Some(patterns[i]);
        }
      }
      if best.Some? && similarity >= CLE_CONFIDENCE_THRESHOLD && best.value.correctedTools != [] {
        var suggested := best.value.correctedTools[0];
        if shadow {
          var ok := WriteEvent(Interception(cmd.tool, suggested, similarity, best.value, true, false));
        } else {
          var found := l.lookup(suggested);
          if found.Ok? {
            if found.value {
              tool, wasCorrected, confidence := suggested, true, similarity;
            }
            var ok := WriteEvent(Interception(cmd.tool, suggested, similarity, best.value, false, found.value));
          }
        }
      }
    }

    method Execute(cmd: Command, ports: Ports, shadow: bool) returns (r: Outcome)
      modifies this
      ensures (r, Now()) == Perform(cmd, ports, shadow, old(Now()), accepts)
    {
      if ports.session.Raised? {
        return PortFailed(ports.session.error);
      }
      if ports.session.value == None {
        return SessionNotFound;
      }
      var session := ports.session.value.value;
      if !session.active {
        return SessionExpired;
      }
      var manifest := ports.lookup(cmd.tool);
      if manifest.Raised? {
        return PortFailed(manifest.error);
      }
      if !manifest.value {
        return ToolNotFound;
      }
      if ports.policies.Raised? {
        return PortFailed(ports.policies.error);
      }
      var stop := CheckPolicies(ports.policies.value, cmd.tool, ports.evaluate);
      if stop.Some? {
        var verdict := ports.evaluate(stop.value, cmd.tool);
        if verdict.Raised? {
          return PortFailed(verdict.error);
        }
        var ok := WriteEvent(PolicyViolation(cmd.sessionId, session.agentId, stop.value.id, cmd.tool));
        return if ok then PolicyDenied(stop.value.id) else PortFailed("audit");
      }
      var tool, wasCorrected, confidence := Redirect(cmd, ports.learning, shadow);
      ran := ran + [tool];
      var result := ports.run(tool);
      if result.Raised? {
        return PortFailed(result.error);
      }
      var ok := WriteEvent(ToolCalled(cmd.sessionId, session.agentId, tool, wasCorrected, confidence));
      return if ok then Returned(result.value) else PortFailed("audit");
    }
  }

  // ----- safety of one command

  /** Policy i is a TOOL or SESSION policy that does not answer true, the first such. */
  ghost predicate StopsAt(policies: seq<Policy>, tool: Tool, evaluate: PolicyPort, i: nat) {
    && i < |policies| && policies[i].scope in {ToolScope, SessionScope} && evaluate(policies[i], tool) != Ok(true)
    && forall j :: 0 <= j < i && policies[j].scope in {ToolScope, SessionScope} ==>
         evaluate(policies[j], tool) == Ok(true)
  }

  lemma {:induction false} StopIsFirst(policies: seq<Policy>, tool: Tool, evaluate: PolicyPort)
    ensures FirstStop(policies, tool, evaluate) == None <==>
            forall i :: 0 <= i < |policies| && policies[i].scope in {ToolScope, SessionScope} ==>
              evaluate(policies[i], tool) == Ok(true)
    ensures FirstStop(policies, tool, evaluate).Some? ==>
              exists i: nat ::
                StopsAt(policies, tool, evaluate, i) && FirstStop(policies, tool, evaluate) == Some(policies[i])
  {
    if policies != [] {
      var rest, stop := policies[1..], FirstStop(policies, tool, evaluate);
      assert forall j :: 1 <= j < |policies| ==> policies[j] == rest[j - 1];
      StopIsFirst(rest, tool, evaluate);
      if Gated(policies[0]) && evaluate(policies[0], tool) != Ok(true) {
        assert StopsAt(policies, tool, evaluate, 0);
      } else if stop.Some? {
        var k: nat :| StopsAt(rest, tool, evaluate, k) && stop == Some(rest[k]);
        assert rest[k] == policies[k + 1];
        assert StopsAt(policies, tool, evaluate, k + 1);
      }
    }
  }

  /** Every listed TOOL or SESSION policy answers true for this tool. */
  ghost predicate Approved(ports: Ports, tool: Tool) {
    ports.policies.Ok? &&
    forall p :: p in ports.policies.value && p.scope in {ToolScope, SessionScope} ==>
      ports.evaluate(p, tool) == Ok(true)
  }

  /** The session is active, the tool registered and every listed TOOL or SESSION policy answers true. */
  ghost predicate GatePasses(cmd: Command, ports: Ports) {
    && ActiveSession(ports)
    && ports.lookup(cmd.tool) == Ok(true)
    && Approved(ports, cmd.tool)
  }

  /**
   Safety: a tool is handed to the execution port if and only if the gate passes. The gate does
   not mention the learning engine, so none of its failures can block or unblock a command.
   */
  lemma RunsIffGatePasses(cmd: Command, ports: Ports, shadow: bool, w: World, accepts: nat -> bool)
    ensures var (r, w') := Perform(cmd, ports, shadow, w, accepts);
            && (GatePasses(cmd, ports) <==> |w'.ran| == |w.ran| + 1)
            && (!GatePasses(cmd, ports) <==> w'.ran == w.ran)
            && w.ran <= w'.ran && w.events <= w'.events
            && (r.Returned? ==> GatePasses(cmd, ports))
            && (r.PolicyDenied? ==> !GatePasses(cmd, ports))
  {
    if ports.policies.Ok? {
      GateIsNoStop(ports.policies.value, cmd.tool, ports.evaluate);
    }
  }

  lemma GateIsNoStop(policies: seq<Policy>, tool: Tool, evaluate: PolicyPort)
    ensures FirstStop(policies, tool, evaluate) == None <==>
            forall p :: p in policies && p.scope in {ToolScope, SessionScope} ==> evaluate(p, tool) == Ok(true)
  {
    StopIsFirst(policies, tool, evaluate);
  }

  /** `e` records that the tool was called and gave the result. */
  ghost predicate Names(e: Event, tool: Tool, ports: Ports, r: Outcome) {
    e.ToolCalled? && e.tool == tool && ports.run(tool).Ok? && r == Returned(ports.run(tool).value)
  }

  /** A returned command ran one tool and left one ToolCalled event, the last one, that names it. */
  lemma ReturnedIsRecorded(cmd: Command, ports: Ports, shadow: bool, w: World, accepts: nat -> bool)
    requires Perform(cmd, ports, shadow, w, accepts).0.Returned?
    ensures var (r, w') := Perform(cmd, ports, shadow, w, accepts);
            && |w'.ran| == |w.ran| + 1 && |w'.events| > |w.events|
            && Names(w'.events[|w'.events| - 1], w'.ran[|w.ran|], ports, r)
            && w'.events[|w'.events| - 1].wasCorrected == Redirected(cmd, ports, shadow)
            && forall e :: e in w'.events[|w.events|..|w'.events| - 1] ==> e.Interception?
  {
    RunsIffGatePasses(cmd, ports, shadow, w, accepts);
  }

  /** Policy i, with this id, is the first gated one that does not answer true, and it answers false. */
  ghost predicate SaysNo(policies: seq<Policy>, tool: Tool, evaluate: PolicyPort, i: nat, id: string) {
    StopsAt(policies, tool, evaluate, i) && policies[i].id == id && evaluate(policies[i], tool) == Ok(false)
  }

  /** A denial leaves exactly one PolicyViolation event, of the first policy that says no, and runs nothing. */
  lemma DenialIsRecorded(cmd: Command, ports: Ports, shadow: bool, w: World, accepts: nat -> bool)
    requires Perform(cmd, ports, shadow, w, accepts).0.PolicyDenied?
    ensures var (r, w') := Perform(cmd, ports, shadow, w, accepts);
            && w'.ran == w.ran
            && w'.events == w.events +
                 [PolicyViolation(cmd.sessionId, ports.session.value.value.agentId, r.policyId, cmd.tool)]
            && exists i: nat :: SaysNo(ports.policies.value, cmd.tool, ports.evaluate, i, r.policyId)
  {
    var policies := ports.policies.value;
    StopIsFirst(policies, cmd.tool, ports.evaluate);
    var i: nat :| StopsAt(policies, cmd.tool, ports.evaluate, i)
                  && FirstStop(policies, cmd.tool, ports.evaluate) == Some(policies[i]);
    var verdict := ports.evaluate(policies[i], cmd.tool);
    assert verdict.Ok? && !verdict.value;
    assert SaysNo(policies, cmd.tool, ports.evaluate, i, policies[i].id);
  }

  /** Pattern i is the best, has a positive score, and beats every earlier one. */
  ghost predicate IsFirstBest(patterns: seq<CorrectionPattern>, score: CorrectionPattern -> real, n: nat, i: int)
    requires n <= |patterns|
  {
    && 0 <= i < n && Best(patterns, score, n) == Some(patterns[i]) && score(patterns[i]) > 0.0
    && forall j :: 0 <= j < i ==> score(patterns[j]) < score(patterns[i])
  }

  lemma {:induction false} BestIsMaximal(patterns: seq<CorrectionPattern>, score: CorrectionPattern -> real, n: nat)
    requires n <= |patterns|
    ensures forall i :: 0 <= i < n ==> score(patterns[i]) <= ScoreOf(Best(patterns, score, n), score)
    ensures Best(patterns, score, n).Some? <==> exists i :: 0 <= i < n && score(patterns[i]) > 0.0
    ensures Best(patterns, score, n).Some? ==> exists i :: IsFirstBest(patterns, score, n, i)
  {
    if n > 0 {
      BestIsMaximal(patterns, score, n - 1);
      if Best(patterns, score, n) == Best(patterns, score, n - 1) {
        if Best(patterns, score, n).Some? {
          var i :| IsFirstBest(patterns, score, n - 1, i);
          assert IsFirstBest(patterns, score, n, i);
        }
      } else {
        assert IsFirstBest(patterns, score, n, n - 1);
      }
    }
  }

  ghost predicate Redirected(cmd: Command, ports: Ports, shadow: bool) {
    var s := Suggestion(cmd, ports.learning, shadow);
    s.Some? && s.value.applied
  }

  /** `p` scores at least 0.7 and at least as much as every stored pattern. */
  ghost predicate Leads(l: Learning, p: CorrectionPattern) {
    && l.available && l.embedding.Ok? && l.patterns.Ok? && p in l.patterns.value
    && l.score(p) >= 0.7
    && forall q :: q in l.patterns.value ==> l.score(q) <= l.score(p)
  }

  /** The first of the leading patterns. */
  ghost predicate FirstLeads(l: Learning, p: CorrectionPattern) {
    && Leads(l, p)
    && exists i :: 0 <= i < |l.patterns.value| && l.patterns.value[i] == p
                   && forall j :: 0 <= j < i ==> l.score(l.patterns.value[j]) < l.score(p)
  }

  /**
   The interception that the learning engine asks for: of the first leading pattern, if that names
   a tool. It is never applied in shadow mode, and otherwise exactly if the registry knows the tool.
   */
  ghost predicate Asks(cmd: Command, l: Learning, shadow: bool, e: Event) {
    && e.Interception? && e.original == cmd.tool
    && FirstLeads(l, e.pattern) && e.pattern.correctedTools != [] && e.suggested == e.pattern.correctedTools[0]
    && e.confidence == l.score(e.pattern) && e.shadow == shadow
    && if shadow then !e.applied else l.lookup(e.suggested) == Ok(e.applied)
  }

  lemma BestIsFirstLeading(l: Learning, p: CorrectionPattern)
    requires l.available && l.embedding.Ok? && l.patterns.Ok?
    ensures FirstLeads(l, p) <==>
            Best(l.patterns.value, l.score, |l.patterns.value|) == Some(p) && l.score(p) >= 0.7
  {
    var patterns := l.patterns.value;
    var best := Best(patterns, l.score, |patterns|);
    BestIsMaximal(patterns, l.score, |patterns|);
    if best == Some(p) {
      var i :| IsFirstBest(patterns, l.score, |patterns|, i);
      assert patterns[i] == p;
    }
    if FirstLeads(l, p) {
      var i :| 0 <= i < |patterns| && patterns[i] == p
               && forall j :: 0 <= j < i ==> l.score(patterns[j]) < l.score(p);
      assert l.score(patterns[i]) > 0.0;
      var k :| IsFirstBest(patterns, l.score, |patterns|, k);
      assert patterns[k] in patterns;
    }
  }

  /** The suggestion is exactly what is asked for, if anything is. */
  lemma SuggestionIff(cmd: Command, l: Learning, shadow: bool, e: Event)
    ensures Suggestion(cmd, l, shadow) == Some(e) <==> Asks(cmd, l, shadow, e)
  {
    if l.available && l.embedding.Ok? && l.patterns.Ok? {
      var best := Best(l.patterns.value, l.score, |l.patterns.value|);
      if best.Some? {
        BestIsFirstLeading(l, best.value);
      }
      if e.Interception? {
        BestIsFirstLeading(l, e.pattern);
      }
    }
  }

  /** What a run leaves in the log behind the interception: the call, if it returned and this write was accepted. */
  ghost function CallEvents(
    cmd: Command, ports: Ports, tool: Tool, corrected: bool, confidence: real, accepted: bool): seq<Event>
    requires ports.session.Ok? && ports.session.value.Some?
  {
    if ports.run(tool).Ok? && accepted
    then [ToolCalled(cmd.sessionId, ports.session.value.value.agentId, tool, corrected, confidence)] else []
  }

  /**
   When the gate passes and an interception is asked for, exactly that one is logged, if its write
   is accepted, in front of the call; the suggested tool runs if it is applied, and the named one
   otherwise, as always in shadow mode.
   */
  lemma InterceptionIsLogged(cmd: Command, ports: Ports, shadow: bool, w: World, accepts: nat -> bool, e: Event)
    requires GatePasses(cmd, ports) && Asks(cmd, ports.learning, shadow, e)
    ensures var w' := Perform(cmd, ports, shadow, w, accepts).1;
            var tool := if e.applied then e.suggested else cmd.tool;
            && w'.ran == w.ran + [tool]
            && w'.events == w.events + (if accepts(w.writes) then [e] else [])
                 + CallEvents(cmd, ports, tool, e.applied, if e.applied then e.confidence else 0.0,
                              accepts(w.writes + 1))
  {
    GateIsNoStop(ports.policies.value, cmd.tool, ports.evaluate);
    SuggestionIff(cmd, ports.learning, shadow, e);
  }

  /** When nothing is asked for, the named tool runs and only the call is logged. */
  lemma NothingIsIntercepted(cmd: Command, ports: Ports, shadow: bool, w: World, accepts: nat -> bool)
    requires GatePasses(cmd, ports) && forall e :: !Asks(cmd, ports.learning, shadow, e)
    ensures var w' := Perform(cmd, ports, shadow, w, accepts).1;
            && w'.ran == w.ran + [cmd.tool]
            && w'.events == w.events + CallEvents(cmd, ports, cmd.tool, false, 0.0, accepts(w.writes))
  {
    GateIsNoStop(ports.policies.value, cmd.tool, ports.evaluate);
    var s := Suggestion(cmd, ports.learning, shadow);
    if s.Some? {
      SuggestionIff(cmd, ports.learning, shadow, s.value);
    }
  }

  ghost predicate ActiveSession(ports: Ports) {
    ports.session.Ok? && ports.session.value.Some? && ports.session.value.value.active
  }

  /** A command is refused for its session or its tool exactly when these are amiss, in this order, without a trace. */
  lemma RefusalsAreExact(cmd: Command, ports: Ports, shadow: bool, w: World, accepts: nat -> bool)
    ensures var r := Perform(cmd, ports, shadow, w, accepts).0;
            && (r == SessionNotFound <==> ports.session == Ok(None))
            && (r == SessionExpired <==> ports.session.Ok? && ports.session.value.Some? && !ActiveSession(ports))
            && (r == ToolNotFound <==> ActiveSession(ports) && ports.lookup(cmd.tool) == Ok(false))
    ensures var (r, w') := Perform(cmd, ports, shadow, w, accepts);
            r == SessionNotFound || r == SessionExpired || r == ToolNotFound ==> w' == w
    ensures Perform(cmd, ports, shadow, w, accepts).0.PolicyDenied? <==>
            && ActiveSession(ports) && ports.lookup(cmd.tool) == Ok(true) && ports.policies.Ok? && accepts(w.writes)
            && exists i: nat, id :: SaysNo(ports.policies.value, cmd.tool, ports.evaluate, i, id)
  {
    if ports.policies.Ok? {
      StopSaysNoIff(ports.policies.value, cmd.tool, ports.evaluate);
      var stop := FirstStop(ports.policies.value, cmd.tool, ports.evaluate);
      if stop.Some? {
        var verdict := ports.evaluate(stop.value, cmd.tool);
        assert verdict.Ok? ==> !verdict.value && verdict == Ok(false);
      }
    }
  }

  /** Some policy is the first to stop the command, and says no, exactly when the search finds one that does. */
  lemma StopSaysNoIff(policies: seq<Policy>, tool: Tool, evaluate: PolicyPort)
    ensures (exists i: nat, id :: SaysNo(policies, tool, evaluate, i, id)) <==>
            var stop := FirstStop(policies, tool, evaluate);
            stop.Some? && evaluate(stop.value, tool) == Ok(false)
    ensures FirstStop(policies, tool, evaluate).Some? ==>
              evaluate(FirstStop(policies, tool, evaluate).value, tool) != Ok(true)
  {
    StopIsFirst(policies, tool, evaluate);
    var stop := FirstStop(policies, tool, evaluate);
    if stop.Some? {
      var k: nat :| StopsAt(policies, tool, evaluate, k) && stop == Some(policies[k]);
      if evaluate(stop.value, tool) == Ok(false) {
        assert SaysNo(policies, tool, evaluate, k, policies[k].id);
      }
      forall i: nat, id | SaysNo(policies, tool, evaluate, i, id) ensures i == k {
        assert StopsAt(policies, tool, evaluate, i);
      }
    }
  }

  /**
   Redirects: the tool changes hands only outside shadow mode, to the first corrected tool, found
   in the registry, of a leading pattern; and if all leading patterns name the same registered
   tool, outside shadow mode it does.
   */
  lemma RedirectsAreLearned(cmd: Command, ports: Ports, shadow: bool)
    ensures Redirected(cmd, ports, shadow) ==>
              var s := Suggestion(cmd, ports.learning, shadow).value;
              && !shadow && Leads(ports.learning, s.pattern) && s.confidence == ports.learning.score(s.pattern)
              && s.pattern.correctedTools != [] && s.suggested == s.pattern.correctedTools[0]
              && ports.learning.lookup(s.suggested) == Ok(true)
    ensures !shadow && (exists p :: Leads(ports.learning, p))
            && (forall p :: Leads(ports.learning, p) ==>
                  p.correctedTools != [] && ports.learning.lookup(p.correctedTools[0]) == Ok(true))
            ==> Redirected(cmd, ports, shadow)
  {
    var l := ports.learning;
    if l.patterns.Ok? {
      var patterns := l.patterns.value;
      BestIsMaximal(patterns, l.score, |patterns|);
      var best := Best(patterns, l.score, |patterns|);
      forall q | q in patterns ensures l.score(q) <= ScoreOf(best, l.score) {
        var i :| 0 <= i < |patterns| && patterns[i] == q;
      }
      if p :| Leads(l, p) {
        var i :| 0 <= i < |patterns| && patterns[i] == p;
        assert best.Some? && Leads(l, best.value);
      }
    }
  }

  /** The engine scores patterns by `MatchesIntent` on the embedding it got; each pattern has its own decay. */
  ghost predicate ScoresByMatch(l: Learning, norm: Vector -> real, decay: CorrectionPattern -> real) {
    l.embedding.Ok? && l.patterns.Ok? ==>
      && IsNorm(norm, l.embedding.value)
      && forall p :: p in l.patterns.value ==>
           && IsNorm(norm, p.intentVector) && 0.0 <= decay(p) <= 1.0
           && l.score(p) == p.MatchesIntent(l.embedding.value, norm, decay(p))
  }

  /**
   Only fresh and trusted patterns redirect: the decay factor is still at least 0.7, at most
   three in ten of the corrections were undone, and some save supplied a nonzero embedding.
   */
  lemma RedirectNeedsTrust(
    cmd: Command, ports: Ports, shadow: bool, norm: Vector -> real, decay: CorrectionPattern -> real)
    requires ScoresByMatch(ports.learning, norm, decay) && Redirected(cmd, ports, shadow)
    ensures var p := Suggestion(cmd, ports.learning, shadow).value.pattern;
            && decay(p) >= 0.7
            && (p.occurrenceCount > 0 ==> 10 * p.totalUndoCount <= 3 * p.occurrenceCount)
            && SumSquares(p.intentVector) != 0.0
  {
    RedirectsAreLearned(cmd, ports, shadow);
    var p := Suggestion(cmd, ports.learning, shadow).value.pattern;
    HighMatchNeedsTrust(p, ports.learning.embedding.value, norm, decay(p));
  }

  /**
   From learning to dispatch: when the in-memory store answers with the table of its log, a command
   is redirected only to a tool that some correction in the log names, with a nonzero embedding.
   */
  lemma RedirectWasTaught(
    cmd: Command, ports: Ports, shadow: bool, norm: Vector -> real, decay: CorrectionPattern -> real, log: seq<Save>)
    requires ScoresByMatch(ports.learning, norm, decay) && Redirected(cmd, ports, shadow)
    requires ports.learning.patterns.Ok?
    requires forall p :: p in ports.learning.patterns.value ==>
               exists t :: t in PatternsOf(log) && PatternsOf(log)[t] == p
    ensures Taught(log, Suggestion(cmd, ports.learning, shadow).value.suggested)
  {
    RedirectNeedsTrust(cmd, ports, shadow, norm, decay);
    RedirectsAreLearned(cmd, ports, shadow);
    var s := Suggestion(cmd, ports.learning, shadow).value;
    var tool :| tool in PatternsOf(log) && PatternsOf(log)[tool] == s.pattern;
    TableAgreesWithLog(log, tool);
    UntaughtHasNoLength(log, tool);
  }

  /**
   The gate asks about the tool that was named, not the one that runs. The tool that runs has the
   policies' approval if and only if there is no redirect to a tool without it.
   */
  lemma RunIsApprovedIff(cmd: Command, ports: Ports, shadow: bool, w: World, accepts: nat -> bool)
    requires GatePasses(cmd, ports)
    ensures var w' := Perform(cmd, ports, shadow, w, accepts).1;
            && |w'.ran| == |w.ran| + 1
            && var tool := w'.ran[|w.ran|];
               && (Approved(ports, tool) <==>
                     (Redirected(cmd, ports, shadow) ==>
                        Approved(ports, Suggestion(cmd, ports.learning, shadow).value.suggested)))
               && (shadow ==> Approved(ports, tool))
  {
    GateIsNoStop(ports.policies.value, cmd.tool, ports.evaluate);
  }

  /** A tool that is denied when it is named runs when a learned pattern leads to it. */
  lemma DeniedToolRuns(accepts: nat -> bool) returns (cmd: Command, ports: Ports, denied: Tool)
    requires forall n :: accepts(n)
    ensures GatePasses(cmd, ports) && !Approved(ports, denied)
    ensures Perform(cmd.(tool := denied), ports, false, World([], [], 0), accepts).0.PolicyDenied?
    ensures Perform(cmd, ports, false, World([], [], 0), accepts).0.Returned?
    ensures Perform(cmd, ports, false, World([], [], 0), accepts).1.ran == [denied]
  {
    denied := "b";
    cmd := Command("s", "a");
    var p := CorrectionPattern([1.0], ["a"], [denied], 1, 0.0, 0.0, 0);
    var learning := Learning(true, Attempt.Ok([1.0]), Attempt.Ok([p]), q => 1.0, t => Attempt.Ok(true));
    var policy := Policy("p", ToolScope);
    ports := Ports(Attempt.Ok(Some(Session("g", true))), t => Attempt.Ok(true), Attempt.Ok([policy]),
                   (q, t) => Attempt.Ok(t == "a"), t => Attempt.Ok("done"), learning);
    assert Best([p], learning.score, 0) == None;
    assert Best([p], learning.score, 1) == Some(p);
    assert ports.policies.value[1..] == [];
    assert policy in ports.policies.value && "a"[0] != denied[0];
    GateIsNoStop(ports.policies.value, cmd.tool, ports.evaluate);
    var s := Suggestion(cmd, learning, false);
    assert s == Some(Interception("a", denied, 1.0, p, false, true));
    assert accepts(0) && accepts(1);
    assert Tell(s, World([], [], 0), accepts).writes == 1;
  }

  /** The same pattern in shadow mode is only logged, in front of the call of the tool that was named. */
  lemma ShadowModeLogs(cmd: Command, ports: Ports, p: CorrectionPattern, accepts: nat -> bool)
    requires cmd == Command("s", "a") && forall n :: accepts(n)
    requires ports.session == Ok(Some(Session("g", true))) && ports.lookup("a") == Ok(true)
    requires ports.policies == Ok([]) && ports.run("a") == Ok("done")
    requires ports.learning.available && ports.learning.embedding.Ok? && ports.learning.patterns == Ok([p])
    requires ports.learning.score(p) == 0.9 && p.correctedTools == ["b"]
    ensures Perform(cmd, ports, true, World([], [], 0), accepts) ==
            (Returned("done"),
             World([Interception("a", "b", 0.9, p, true, false), ToolCalled("s", "g", "a", false, 0.0)], ["a"], 2))
  {
    var l, e := ports.learning, Interception("a", "b", 0.9, p, true, false);
    assert l.patterns.value[0] == p && FirstLeads(l, p);
    SuggestionIff(cmd, l, true, e);
    assert accepts(0) && accepts(1);
    var told := Tell(Some(e), World([], [], 0), accepts);
    assert told == World([e], [], 1);
    assert FirstStop(ports.policies.value, "a", ports.evaluate) == None;
    var call := ToolCalled("s", "g", "a", false, 0.0);
    assert Write(World([e], ["a"], 1), call, accepts) == World([e, call], ["a"], 2);
    assert told.(ran := told.ran + ["a"]) == World([e], ["a"], 1);
  }

  /** A redirect's interception is in the log exactly when that write was accepted; the redirect stands either way. */
  lemma RedirectIsAuditedIff(cmd: Command, ports: Ports, shadow: bool, w: World, accepts: nat -> bool)
    requires GatePasses(cmd, ports) && Redirected(cmd, ports, shadow)
    ensures var (r, w') := Perform(cmd, ports, shadow, w, accepts);
            var s := Suggestion(cmd, ports.learning, shadow).value;
            && w'.ran == w.ran + [s.suggested]
            && ((|w'.events| > |w.events| && w'.events[|w.events|] == s) <==> accepts(w.writes))
  {
    GateIsNoStop(ports.policies.value, cmd.tool, ports.evaluate);
  }

  // ----- runs of many commands

  datatype Call = Call(cmd: Command, ports: Ports, shadow: bool)

  function RunAll(calls: seq<Call>, accepts: nat -> bool): (seq<Outcome>, World) {
    if calls == [] then ([], World([], [], 0)) else
      var (outcomes, w) := RunAll(calls[..|calls| - 1], accepts);
      var c := calls[|calls| - 1];
      var (r, w') := Perform(c.cmd, c.ports, c.shadow, w, accepts);
      (outcomes + [r], w')
  }

  ghost function CountCalled(events: seq<Event>): nat {
    if events == [] then 0 else
      CountCalled(events[..|events| - 1]) + if events[|events| - 1].ToolCalled? then 1 else 0
  }

  ghost function CountViolations(events: seq<Event>): nat {
    if events == [] then 0 else
      CountViolations(events[..|events| - 1]) + if events[|events| - 1].PolicyViolation? then 1 else 0
  }

  ghost function CountReturned(outcomes: seq<Outcome>): nat {
    if outcomes == [] then 0 else
      CountReturned(outcomes[..|outcomes| - 1]) + if outcomes[|outcomes| - 1].Returned? then 1 else 0
  }

  ghost function CountDenied(outcomes: seq<Outcome>): nat {
    if outcomes == [] then 0 else
      CountDenied(outcomes[..|outcomes| - 1]) + if outcomes[|outcomes| - 1].PolicyDenied? then 1 else 0
  }

  ghost function CountPassed(calls: seq<Call>): nat {
    if calls == [] then 0 else
      CountPassed(calls[..|calls| - 1]) +
      if GatePasses(calls[|calls| - 1].cmd, calls[|calls| - 1].ports) then 1 else 0
  }

  lemma WriteCounts(w: World, e: Event, accepts: nat -> bool)
    ensures var counted := if accepts(w.writes) then 1 else 0;
            && CountCalled(Write(w, e, accepts).events)
               == CountCalled(w.events) + (if e.ToolCalled? then counted else 0)
            && CountViolations(Write(w, e, accepts).events)
               == CountViolations(w.events) + (if e.PolicyViolation? then counted else 0)
  {
    assert (w.events + [e])[..|w.events|] == w.events;
  }

  lemma PerformCounts(cmd: Command, ports: Ports, shadow: bool, w: World, accepts: nat -> bool)
    ensures var (r, w') := Perform(cmd, ports, shadow, w, accepts);
            && CountCalled(w'.events) == CountCalled(w.events) + (if r.Returned? then 1 else 0)
            && CountViolations(w'.events) == CountViolations(w.events) + (if r.PolicyDenied? then 1 else 0)
  {
    if ports.session.Ok? && ports.session.value.Some? && ports.policies.Ok? {
      var agentId := ports.session.value.value.agentId;
      var stop := FirstStop(ports.policies.value, cmd.tool, ports.evaluate);
      if stop.Some? {
        WriteCounts(w, PolicyViolation(cmd.sessionId, agentId, stop.value.id, cmd.tool), accepts);
      } else {
        RunGatedCounts(cmd, agentId, ports, Suggestion(cmd, ports.learning, shadow), w, accepts);
      }
    }
  }

  lemma RunGatedCounts(cmd: Command, agentId: string, ports: Ports, s: Option<Event>, w: World, accepts: nat -> bool)
    requires s.Some? ==> s.value.Interception?
    ensures var (r, w') := RunGated(cmd, agentId, ports, s, w, accepts);
            && CountCalled(w'.events) == CountCalled(w.events) + (if r.Returned? then 1 else 0)
            && CountViolations(w'.events) == CountViolations(w.events) && !r.PolicyDenied?
  {
    TellCounts(s, w, accepts);
    ToldCounts(cmd, agentId, ports, s, Tell(s, w, accepts), accepts);
  }

  lemma ToldCounts(cmd: Command, agentId: string, ports: Ports, s: Option<Event>, told: World, accepts: nat -> bool)
    requires s.Some? ==> s.value.Interception?
    ensures var (r, w') := RunTold(cmd, agentId, ports, s, told, accepts);
            && CountCalled(w'.events) == CountCalled(told.events) + (if r.Returned? then 1 else 0)
            && CountViolations(w'.events) == CountViolations(told.events) && !r.PolicyDenied?
  {
    var corrected := s.Some? && s.value.applied;
    var tool := if corrected then s.value.suggested else cmd.tool;
    var call := ToolCalled(cmd.sessionId, agentId, tool, corrected, if corrected then s.value.confidence else 0.0);
    WriteCounts(told.(ran := told.ran + [tool]), call, accepts);
  }

  lemma TellCounts(s: Option<Event>, w: World, accepts: nat -> bool)
    requires s.Some? ==> s.value.Interception?
    ensures CountCalled(Tell(s, w, accepts).events) == CountCalled(w.events)
    ensures CountViolations(Tell(s, w, accepts).events) == CountViolations(w.events)
  {
    if s.Some? {
      WriteCounts(w, s.value, accepts);
    }
  }

  /**
   Over any run, whichever ports and audit writes fail: one ToolCalled event for each command that
   returned, one PolicyViolation event for each denial, one tool run for each passed gate.
   */
  lemma {:induction false} AuditIsConserved(calls: seq<Call>, accepts: nat -> bool)
    ensures var (outcomes, w) := RunAll(calls, accepts);
            && |outcomes| == |calls|
            && CountCalled(w.events) == CountReturned(outcomes)
            && CountViolations(w.events) == CountDenied(outcomes)
            && |w.ran| == CountPassed(calls)
  {
    if calls != [] {
      var before, c := calls[..|calls| - 1], calls[|calls| - 1];
      var (outcomes, w) := RunAll(before, accepts);
      var (r, w') := Perform(c.cmd, c.ports, c.shadow, w, accepts);
      AuditIsConserved(before, accepts);
      PerformCounts(c.cmd, c.ports, c.shadow, w, accepts);
      RunsIffGatePasses(c.cmd, c.ports, c.shadow, w, accepts);
      assert (outcomes + [r])[..|outcomes|] == outcomes;
    }
  }
}
