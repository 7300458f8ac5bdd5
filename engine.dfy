/**
 * The trigger engine of a single region: actors, rules and regions.
 *
 * A Region detects an actor's entry or exit (module Hysteresis) and then
 * offers the event to each of its rules in registration order. A rule that
 * fires runs its action (a trace of media calls) and may move the region to a
 * new state, which the rules after it in the same pass observe. The three
 * classes refer to one another and so share this module.
 */
module ActiveSpace {
  import opened Wrappers
  import opened Text
  import opened Coords
  import opened Events
  import opened Hysteresis
  import opened Media

  /** A body with a position in the space; its name is its identity. */
  class Actor {
    const name: string
    var lastPosition: Option<Coord>
    var lastRegion: Region?

    /** A new actor at the given location; None means its position is not yet known. */
    constructor (name: string, location: Option<Coord>)
      ensures this.name == name && lastPosition == location && lastRegion == null
    {
      this.name := name;
      lastPosition := location;
      lastRegion := null;
    }

    /** Records a new last known position and nothing else. */
    method SetLastPosition(location: Option<Coord>)
      modifies this`lastPosition
      ensures lastPosition == location
    {
      lastPosition := location;
    }

    /** Records the last region entered and nothing else; the position is untouched. */
    method SetLastEntered(r: Region?)
      modifies this`lastRegion
      ensures lastRegion == r
    {
      lastRegion := r;
    }
  }

  /**
   * What a rule is attached to. A local rule watches one region and may read
   * and move its state; a global rule (the space's startup, actor-entry and
   * actor-exit rules) belongs to no region and has no state.
   */
  datatype Scope = Local(region: Region) | Global

  /** The result of offering one event to a sequence of rules. */
  datatype Pass = Pass(fired: bool, state: int, calls: seq<MediaCall>)

  /** A trigger condition (event and optional state) with an action and an optional next state; -1 means none. */
  class Rule {
    const name: string
    const scope: Scope
    const event: EventType
    const initState: int
    const nextState: int
    const action: RegionEvent

    /** A local rule appends itself to its region's rules; a global one is registered nowhere. */
    constructor (name: string, scope: Scope, event: EventType, initState: int, nextState: int, action: RegionEvent)
      modifies ScopeRegions(scope)`rules
      ensures this.name == name && this.scope == scope && this.event == event
      ensures this.initState == initState && this.nextState == nextState && this.action == action
      ensures scope.Local? ==> scope.region.rules == old(scope.region.rules) + [this]
    {
      this.name := name;
      this.scope := scope;
      this.event := event;
      this.initState := initState;
      this.nextState := nextState;
      this.action := action;
      new;
      if scope.Local? {
        scope.region.AddRule(this);
      }
    }

    /** The region whose state this rule reads and writes, if any. */
    function Footprint(): set<Region>
    {
      ScopeRegions(scope)
    }

    /**
     * Whether the rule fires for event ev when its region is in state s: the
     * event must match, and a local rule with initState >= 0 also needs s == initState.
     */
    predicate Fires(ev: EventType, s: int)
    {
      ev == event && (scope.Global? || initState < 0 || initState == s)
    }

    /** The region state after the rule has fired in state s. */
    function After(s: int): int
    {
      if scope.Local? && nextState >= 0 then nextState else s
    }

    /**
     * Rule.checkTriggered: on a match, runs the action once and moves the
     * region to nextState when that is not negative; otherwise does nothing.
     */
    method CheckTriggered(ev: EventType) returns (fired: bool, calls: seq<MediaCall>)
      modifies Footprint()`state
      ensures scope.Global? ==> fired == (ev == event)
      ensures scope.Local? ==> fired == Fires(ev, old(scope.region.state))
      ensures calls == if fired then action.Callback() else []
      ensures scope.Local? ==>
        scope.region.state == if fired then After(old(scope.region.state)) else old(scope.region.state)
    {
      if ev != event {
        return false, [];
      }
      if scope.Local? && initState >= 0 && initState != scope.region.state {
        return false, [];
      }
      calls := action.Callback();
      if scope.Local? && nextState >= 0 {
        scope.region.SetState(nextState);
      }
      fired := true;
    }

    /** The region attribute: the region's name, or "NONE" for a global rule, as the rule file spells it. */
    function RegionName(): string
    {
      if scope.Local? then scope.region.name else "NONE"
    }

    /** The attributes of a rule element, in the order written. */
    function Attrs(): seq<(string, string)>
    {
      [("name", name), ("region", RegionName()), ("event", EventName(event))]
      + OptionalState("state", initState) + OptionalState("next", nextState)
    }

    /** The rule element with its action elements as children. */
    function Node(): Node
      reads action
    {
      Branch("rule", Attrs(), action.ActionNodes())
    }

    /** Rule.toXML: the rule element at depth 1. */
    function ToXML(): (out: string)
      reads action
      ensures out == Render(Node(), 1)
    {
      var state := if initState >= 0 then " state=\"" + IntToString(initState) + "\"" else "";
      var next := if nextState >= 0 then " next=\"" + IntToString(nextState) + "\"" else "";
      RuleText(this);
      "    <rule" + (" name=\"" + name + "\"") + (" region=\"" + RegionName() + "\"")
      + (" event=\"" + EventName(event) + "\"") + state + next + ">\n"
      + action.ToXML() + "    </rule>\n"
    }
  }

  /** The regions a scope names. */
  function ScopeRegions(scope: Scope): set<Region>
  {
    if scope.Local? then {scope.region} else {}
  }

  /** A state attribute, written only for a non-negative value. */
  function OptionalState(attr: string, v: int): seq<(string, string)>
  {
    if v >= 0 then [(attr, IntToString(v))] else []
  }

  /** The state and next attributes are written exactly when their values are not negative. */
  lemma RuleAttrNames(q: Rule)
    ensures AttrNames(q.Attrs())[..3] == ["name", "region", "event"]
    ensures "state" in AttrNames(q.Attrs()) <==> q.initState >= 0
    ensures "next" in AttrNames(q.Attrs()) <==> q.nextState >= 0
  {
    var names := AttrNames(q.Attrs());
    if q.initState >= 0 {
      assert names[3] == "state";
    }
    if q.nextState >= 0 {
      assert names[|names| - 1] == "next";
    }
  }

  lemma OptionalStateText(attr: string, v: int)
    ensures AttrsText(OptionalState(attr, v)) == if v >= 0 then " " + attr + "=\"" + IntToString(v) + "\"" else ""
  {
    if v >= 0 {
      assert OptionalState(attr, v)[1..] == [];
    }
  }

  /** Rule.toXML's concatenation is the rendering of the rule element. */
  lemma RuleText(q: Rule)
    ensures
      "    <rule" + (" name=\"" + q.name + "\"") + (" region=\"" + q.RegionName() + "\"")
      + (" event=\"" + EventName(q.event) + "\"")
      + (if q.initState >= 0 then " state=\"" + IntToString(q.initState) + "\"" else "")
      + (if q.nextState >= 0 then " next=\"" + IntToString(q.nextState) + "\"" else "") + ">\n"
      + q.action.ToXML() + "    </rule>\n"
      == Render(q.Node(), 1)
  {
    RuleLiterals();
    var sText := if q.initState >= 0 then " state=\"" + IntToString(q.initState) + "\"" else "";
    var nText := if q.nextState >= 0 then " next=\"" + IntToString(q.nextState) + "\"" else "";
    var a1, a2, a3 := AttrText("name", q.name), AttrText("region", q.RegionName()), AttrText("event", EventName(q.event));
    RuleAttrsText(q.name, q.RegionName(), EventName(q.event), q.initState, q.nextState);
    assert AttrsText(q.Attrs()) == a1 + a2 + a3 + sText + nText;
    AttrPiece(" name=\"", "name", q.name);
    AttrPiece(" region=\"", "region", q.RegionName());
    AttrPiece(" event=\"", "event", EventName(q.event));
    BranchText("rule", q.Attrs(), q.action.ActionNodes(), 1);
    Assoc5("    <rule", a1, a2, a3, sText, nText);
  }

  /** The fixed pieces of a rule element's text. */
  lemma RuleLiterals()
    ensures " name=\"" == " " + "name" + "=\""
    ensures " region=\"" == " " + "region" + "=\""
    ensures " event=\"" == " " + "event" + "=\""
    ensures Indent(1) + "<" + "rule" == "    <rule"
    ensures Indent(1) + "</" + "rule" + ">\n" == "    </rule>\n"
  {
    assert Indent(1) == "    ";
  }

  /** An attribute written as one piece, leading blank included. */
  lemma AttrPiece(blankNameEq: string, name: string, value: string)
    requires blankNameEq == " " + name + "=\""
    ensures blankNameEq + value + "\"" == AttrText(name, value)
  {
  }

  /** The attribute text of a rule element. */
  lemma RuleAttrsText(name: string, region: string, event: string, init: int, next: int)
    ensures AttrsText([("name", name), ("region", region), ("event", event)] + OptionalState("state", init) + OptionalState("next", next))
      == AttrText("name", name) + AttrText("region", region) + AttrText("event", event)
         + (if init >= 0 then " state=\"" + IntToString(init) + "\"" else "")
         + (if next >= 0 then " next=\"" + IntToString(next) + "\"" else "")
  {
    var fixed := [("name", name), ("region", region), ("event", event)];
    var st, nx := OptionalState("state", init), OptionalState("next", next);
    AttrsTextAppend(fixed + st, nx);
    AttrsTextAppend(fixed, st);
    OptionalStateText("state", init);
    OptionalStateText("next", next);
    assert " " + "state" + "=\"" == " state=\"" && " " + "next" + "=\"" == " next=\"";
    ThreeAttrs("name", name, "region", region, "event", event);
  }

  /**
   * The effect of offering event ev to rules in order, starting in state s:
   * each rule sees the state left by those before it, every rule is offered
   * the event, and the actions of the rules that fire run in order.
   */
  function RunRules(rules: seq<Rule>, s: int, ev: EventType): Pass
    reads set q | q in rules :: q.action
    decreases |rules|
  {
    if rules == [] then Pass(false, s, [])
    else
      var p := RunRules(rules[..|rules| - 1], s, ev);
      var q := rules[|rules| - 1];
      if q.Fires(ev, p.state) then Pass(true, q.After(p.state), p.calls + q.action.Callback()) else p
  }

  /** Rule i fires in the state left by the rules before it. */
  predicate FiresAt(rules: seq<Rule>, i: int, s: int, ev: EventType)
    requires 0 <= i < |rules|
    reads set q | q in rules :: q.action
  {
    rules[i].Fires(ev, RunRules(rules[..i], s, ev).state)
  }

  /** A pass reports a firing exactly when some rule fires in the state it is offered the event in. */
  lemma {:induction false} RunRulesFired(rules: seq<Rule>, s: int, ev: EventType)
    ensures RunRules(rules, s, ev).fired <==> exists i :: 0 <= i < |rules| && FiresAt(rules, i, s, ev)
    decreases |rules|
  {
    if rules != [] {
      var n := |rules| - 1;
      var init := rules[..n];
      RunRulesFired(init, s, ev);
      if RunRules(rules, s, ev).fired {
        if FiresAt(rules, n, s, ev) {
        } else {
          // the firing happened before the last rule
          var i :| 0 <= i < n && FiresAt(init, i, s, ev);
          assert rules[..i] == init[..i];
          assert FiresAt(rules, i, s, ev);
        }
      }
      if exists i :: 0 <= i < |rules| && FiresAt(rules, i, s, ev) {
        var i :| 0 <= i < |rules| && FiresAt(rules, i, s, ev);
        if i < n {
          assert rules[..i] == init[..i];
          assert FiresAt(init, i, s, ev);
        }
      }
    }
  }

  /** When no rule fires, a pass changes nothing: the state stays and no action runs. */
  lemma {:induction false} RunRulesQuiet(rules: seq<Rule>, s: int, ev: EventType)
    requires forall q :: q in rules ==> q.event != ev
    ensures RunRules(rules, s, ev) == Pass(false, s, [])
    decreases |rules|
  {
    if rules != [] {
      RunRulesQuiet(rules[..|rules| - 1], s, ev);
    }
  }

  /** The state after a pass is the starting state or the non-negative next state of one of the rules. */
  lemma {:induction false} RunRulesState(rules: seq<Rule>, s: int, ev: EventType)
    ensures var p := RunRules(rules, s, ev);
      p.state == s || exists i :: 0 <= i < |rules| && rules[i].nextState >= 0 && p.state == rules[i].nextState
    decreases |rules|
  {
    if rules != [] {
      var n := |rules| - 1;
      RunRulesState(rules[..n], s, ev);
      var p := RunRules(rules[..n], s, ev);
      if p.state != s && RunRules(rules, s, ev).state == p.state {
        var i :| 0 <= i < n && rules[..n][i].nextState >= 0 && p.state == rules[..n][i].nextState;
        assert rules[i] == rules[..n][i];
      }
    }
  }

  /**
   * Rules cascade: a rule 0 -> 1 followed by a rule 1 -> 2 for the same event
   * both fire on one event and leave the region in state 2, while registered
   * the other way round only the first fires.
   */
  lemma Cascade(a: Rule, b: Rule, ev: EventType)
    requires a.scope.Local? && b.scope.Local?
    requires a.event == ev && b.event == ev
    requires a.initState == 0 && a.nextState == 1 && b.initState == 1 && b.nextState == 2
    ensures RunRules([a, b], 0, ev) == Pass(true, 2, a.action.Callback() + b.action.Callback())
    ensures RunRules([b, a], 0, ev) == Pass(true, 1, a.action.Callback())
  {
    assert [a, b][..1] == [a] && [b, a][..1] == [b];
    assert [a][..0] == [] && [b][..0] == [];
    assert RunRules([a], 0, ev) == Pass(true, 1, [] + a.action.Callback());
    assert [] + a.action.Callback() == a.action.Callback();
    assert RunRules([b], 0, ev) == Pass(false, 0, []);
  }

  /** A circular region with an integer state and an ordered list of rules. */
  class Region {
    const name: string
    const location: Coord
    const radius: real
    var state: int
    var rules: seq<Rule>

    /** Every rule of a region is local to it. */
    ghost predicate Valid()
      reads this`rules
    {
      forall q :: q in rules ==> q.scope == Local(this)
    }

    /** A new region starts in state 0 with no rules. */
    constructor (name: string, location: Coord, radius: real)
      ensures this.name == name && this.location == location && this.radius == radius
      ensures state == 0 && rules == []
      ensures Valid()
    {
      this.name := name;
      this.location := location;
      this.radius := radius;
      state := 0;
      rules := [];
    }

    method SetState(s: int)
      modifies this`state
      ensures state == s
    {
      state := s;
    }

    /** Appends a rule; earlier rules keep their order. */
    method AddRule(rule: Rule)
      modifies this`rules
      ensures rules == old(rules) + [rule]
    {
      rules := rules + [rule];
    }

    /** What processing a report at newPos does, for an actor last seen at last. */
    function Outcome(last: Option<Coord>, newPos: Coord): Pass
      reads this, set q | q in rules :: q.action
    {
      var ev := Detect(location, radius, last, newPos);
      if ev == NONE then Pass(false, state, []) else RunRules(rules, state, ev)
    }

    /**
     * Region.processPosition: detects an entry or exit against the actor's
     * last position and, on one, offers it to every rule in order. Only the
     * region's state changes; the actor is not updated.
     */
    method ProcessPosition(actor: Actor, newPos: Coord) returns (didSomething: bool, calls: seq<MediaCall>)
      requires Valid()
      modifies this`state
      ensures Pass(didSomething, state, calls) == old(Outcome(actor.lastPosition, newPos))
    {
      var ev := Detect(location, radius, actor.lastPosition, newPos);
      if ev == NONE {
        return false, [];
      }
      didSomething := false;
      calls := [];
      var i := 0;
      while i < |rules|
        invariant 0 <= i <= |rules|
        invariant Valid() && rules == old(rules)
        invariant Pass(didSomething, state, calls) == RunRules(rules[..i], old(state), ev)
      {
        var q := rules[i];
        assert q.scope == Local(this);
        assert rules[..i + 1][..i] == rules[..i];
        var fired, c := q.CheckTriggered(ev);
        if fired {
          didSomething := true;
          calls := calls + c;
        }
        i := i + 1;
      }
      assert rules[..|rules|] == rules;
    }

    /** The region element: name and radius attributes, the centre as its child. */
    function Node(fmt: real -> string): Node
    {
      Branch("region", [("name", name), ("radius", fmt(radius))], [PositionNode(location, fmt)])
    }

    /** Region.toXML, with fmt standing for Java's float formatting. */
    function ToXML(fmt: real -> string): (out: string)
      ensures out == Render(Node(fmt), 1)
    {
      RegionText(this, fmt);
      "    <region " + ("name=\"" + name + "\" ") + ("radius=\"" + fmt(radius) + "\"") + ">\n"
      + Coords.ToXML(location, fmt) + "    </region>\n"
    }

    /** The elements of this region's rules, in registration order. */
    function RuleNodes(): seq<Node>
      reads this, set q | q in rules :: q.action
    {
      RuleNodesOf(rules)
    }

    /** Region.rulesToXML: each rule's element in turn. */
    method RulesToXML() returns (out: string)
      ensures out == RenderAll(RuleNodes(), 1)
    {
      out := "";
      var i := 0;
      while i < |rules|
        invariant 0 <= i <= |rules|
        invariant out == RenderAll(RuleNodesOf(rules[..i]), 1)
      {
        assert rules[..i + 1] == rules[..i] + [rules[i]];
        RuleNodesOfAppend(rules[..i], [rules[i]]);
        RenderAllAppend(RuleNodesOf(rules[..i]), RuleNodesOf([rules[i]]), 1);
        assert RuleNodesOf([rules[i]]) == [rules[i].Node()];
        assert RenderAll([rules[i].Node()], 1) == Render(rules[i].Node(), 1);
        out := out + rules[i].ToXML();
        i := i + 1;
      }
      assert rules[..|rules|] == rules;
    }
  }

  /** The elements of a sequence of rules. */
  function RuleNodesOf(rules: seq<Rule>): (ns: seq<Node>)
    reads set q | q in rules :: q.action
    ensures |ns| == |rules|
    ensures forall i :: 0 <= i < |rules| ==> ns[i] == rules[i].Node()
  {
    if rules == [] then [] else [rules[0].Node()] + RuleNodesOf(rules[1..])
  }

  lemma RuleNodesOfAppend(a: seq<Rule>, b: seq<Rule>)
    ensures RuleNodesOf(a + b) == RuleNodesOf(a) + RuleNodesOf(b)
  {
  }

  /** Region.toXML's concatenation is the rendering of the region element. */
  lemma RegionText(r: Region, fmt: real -> string)
    ensures "    <region " + ("name=\"" + r.name + "\" ") + ("radius=\"" + fmt(r.radius) + "\"") + ">\n"
      + Coords.ToXML(r.location, fmt) + "    </region>\n"
      == Render(r.Node(fmt), 1)
  {
    var p1, p2 := "name=\"" + r.name + "\"", "radius=\"" + fmt(r.radius) + "\"";
    RegionLiterals();
    BlankPiece("name=\"", "name", r.name);
    BlankPiece("radius=\"", "radius", fmt(r.radius));
    TwoAttrs("name", r.name, "radius", fmt(r.radius));
    SpacedPair("    <region", p1, p2);
    assert "name=\"" + r.name + "\" " == p1 + " ";
    var children := [PositionNode(r.location, fmt)];
    assert children[1..] == [];
    assert RenderAll(children, 2) == Coords.ToXML(r.location, fmt);
    BranchText("region", [("name", r.name), ("radius", fmt(r.radius))], children, 1);
  }

  /** The fixed pieces of a region element's text. */
  lemma RegionLiterals()
    ensures "name=\"" == "name" + "=\"" && "radius=\"" == "radius" + "=\""
    ensures Indent(1) + "<" + "region" == "    <region"
    ensures Indent(1) + "</" + "region" + ">\n" == "    </region>\n"
  {
    assert Indent(1) == "    ";
  }

  /** An attribute written without its leading blank, which is then put in front. */
  lemma BlankPiece(nameEq: string, name: string, value: string)
    requires nameEq == name + "=\""
    ensures " " + (nameEq + value + "\"") == AttrText(name, value)
  {
  }

  /** Two pieces each followed by a blank are two pieces each preceded by one. */
  lemma SpacedPair(head: string, p1: string, p2: string)
    ensures head + " " + (p1 + " ") + p2 == head + ((" " + p1) + (" " + p2))
  {
  }

  /** A region reports nothing and runs no rule for a report that is not an entry or exit. */
  lemma QuietReport(r: Region, last: Option<Coord>, newPos: Coord)
    requires Detect(r.location, r.radius, last, newPos) == NONE
    ensures r.Outcome(last, newPos) == Pass(false, r.state, [])
  {
  }

  /** Rules waiting for the space's startup event never fire inside a region. */
  lemma StartupRulesIgnored(r: Region, last: Option<Coord>, newPos: Coord)
    requires forall q :: q in r.rules ==> q.event == STARTUP
    ensures r.Outcome(last, newPos) == Pass(false, r.state, [])
  {
    var ev := Detect(r.location, r.radius, last, newPos);
    if ev != NONE {
      RunRulesQuiet(r.rules, r.state, ev);
    }
  }
}
