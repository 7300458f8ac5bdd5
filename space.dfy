/**
 * A Space: the regions of a room, the rules attached to them and three global
 * rules (startup, actor entry, actor exit). It fans each position report out
 * to every region, loads rules from already-parsed rule records, and writes
 * its regions and rules back out as XML.
 */
module Spaces {
  import opened Wrappers
  import opened Text
  import opened Coords
  import opened Events
  import opened Media
  import opened ActiveSpace

  // ---------------------------------------------------------------------------
  // Rule records: the attributes and children of a <rule> element, as parsed.

  /** A child of a rule element: its tag and, if present, its file attribute. */
  datatype ActionElement = ActionElement(tag: string, file: Option<string>)

  /** A rule element: the state and next attributes are optional, already converted to integers. */
  datatype RuleRecord = RuleRecord(
    name: string, event: string, state: Option<int>, next: Option<int>,
    region: string, actions: seq<ActionElement>)

  /** The region attribute that addresses the global rules. */
  const NoRegion: string := "NONE"

  /** A resource name is put under the prefix when one is set, except the "cancel" keyword. */
  function ResolveResource(prefix: Option<string>, value: string): (r: string)
    ensures prefix.Some? && value != Cancel ==> r == prefix.value + "/" + value
    ensures prefix.None? || value == Cancel ==> r == value
  {
    if prefix.Some? && value != Cancel then prefix.value + "/" + value else value
  }

  /** The binding an action child sets: none when it has no file attribute. */
  function FileBinding(prefix: Option<string>, file: Option<string>): Option<string>
  {
    if file.Some? then Some(ResolveResource(prefix, file.value)) else None
  }

  /** A missing state or next attribute means -1, "any state" or "no change". */
  function DefaultState(v: Option<int>): (s: int)
    ensures v.None? ==> s == -1
    ensures v.Some? ==> s == v.value
  {
    if v.Some? then v.value else -1
  }

  /**
   * The binding of one channel after the children of a rule have been applied
   * in order: each child with the channel's tag overwrites it.
   */
  function LastBinding(elems: seq<ActionElement>, tag: string, prefix: Option<string>): Option<string>
  {
    if elems == [] then None
    else if elems[|elems| - 1].tag == tag then FileBinding(prefix, elems[|elems| - 1].file)
    else LastBinding(elems[..|elems| - 1], tag, prefix)
  }

  /** No child has the tag. */
  predicate NoneTagged(elems: seq<ActionElement>, tag: string)
  {
    forall j :: 0 <= j < |elems| ==> elems[j].tag != tag
  }

  /** The k-th child is the last one with the tag. */
  predicate LastTagged(elems: seq<ActionElement>, tag: string, k: int)
  {
    0 <= k < |elems| && elems[k].tag == tag && forall j :: k < j < |elems| ==> elems[j].tag != tag
  }

  /** Without a child carrying the tag, the binding stays unset. */
  lemma {:induction false} UntaggedIsUnset(elems: seq<ActionElement>, tag: string, prefix: Option<string>)
    requires NoneTagged(elems, tag)
    ensures LastBinding(elems, tag, prefix) == None
  {
    if elems != [] {
      var n := |elems| - 1;
      assert NoneTagged(elems[..n], tag) by {
        forall j | 0 <= j < n ensures elems[..n][j].tag != tag {
          assert elems[..n][j] == elems[j];
        }
      }
      UntaggedIsUnset(elems[..n], tag, prefix);
    }
  }

  /** The last child with a tag decides its binding. */
  lemma {:induction false} LastTaggedDecides(elems: seq<ActionElement>, tag: string, prefix: Option<string>, k: int)
    requires LastTagged(elems, tag, k)
    ensures LastBinding(elems, tag, prefix) == FileBinding(prefix, elems[k].file)
  {
    var n := |elems| - 1;
    if k < n {
      assert elems[n].tag != tag;
      assert LastTagged(elems[..n], tag, k) by {
        forall j | k < j < n ensures elems[..n][j].tag != tag {
          assert elems[..n][j] == elems[j];
        }
      }
      LastTaggedDecides(elems[..n], tag, prefix, k);
    }
  }

  /** Where a loaded rule goes. */
  datatype Target = ToRegion(regionName: string) | EntrySlot | ExitSlot | StartupSlot | Dropped

  /**
   * Routing of a loaded rule: a named region receives it; region "NONE"
   * selects the global slot of its event, and a "NONE" rule whose event is
   * not recognised is dropped.
   */
  function Route(region: string, event: EventType): (t: Target)
    ensures t.ToRegion? <==> region != NoRegion
    ensures t.ToRegion? ==> t.regionName == region
    ensures t == EntrySlot <==> region == NoRegion && event == ENTRY
    ensures t == ExitSlot <==> region == NoRegion && event == EXIT
    ensures t == StartupSlot <==> region == NoRegion && event == STARTUP
    ensures t == Dropped <==> region == NoRegion && event == NONE
  {
    if region != NoRegion then ToRegion(region)
    else match event
      case ENTRY => EntrySlot
      case EXIT => ExitSlot
      case STARTUP => StartupSlot
      case NONE => Dropped
  }

  /** The target of a record. */
  function RecordTarget(rec: RuleRecord): Target
  {
    Route(rec.region, ParseEventType(rec.event))
  }

  /** A global slot holds a global rule for its event with no state filter and no state change. */
  predicate GlobalSlot(q: Rule?, ev: EventType)
  {
    q != null ==> q.scope == Global && q.event == ev && q.initState == -1 && q.nextState == -1
  }

  /** The calls of the startup rule, when it is still to run. */
  function StartupCalls(started: bool, rule: Rule?): seq<MediaCall>
    reads if rule != null then {rule.action} else {}
  {
    if !started && rule != null then rule.action.Callback() else []
  }

  /** The calls of a global rule that fires, if there is one. */
  function GlobalCalls(rule: Rule?): seq<MediaCall>
    reads if rule != null then {rule.action} else {}
  {
    if rule != null then rule.action.Callback() else []
  }

  /** What each region does with one report. */
  function Outcomes(rs: seq<Region>, last: Option<Coord>, pos: Coord): (ps: seq<Pass>)
    reads (set r | r in rs), (set r, q | r in rs && q in r.rules :: q.action)
    ensures |ps| == |rs|
    ensures forall j :: 0 <= j < |rs| ==> ps[j] == rs[j].Outcome(last, pos)
  {
    if rs == [] then [] else [rs[0].Outcome(last, pos)] + Outcomes(rs[1..], last, pos)
  }

  /** Whether any of the passes fired. */
  predicate AnyFired(ps: seq<Pass>)
  {
    exists j :: 0 <= j < |ps| && ps[j].fired
  }

  /** The media calls of the passes, one after the other. */
  function AllCalls(ps: seq<Pass>): seq<MediaCall>
  {
    if ps == [] then [] else AllCalls(ps[..|ps| - 1]) + ps[|ps| - 1].calls
  }

  /** The rule elements of the regions, region by region. */
  function RegionRuleNodes(rs: seq<Region>): seq<Node>
    reads (set r | r in rs), (set r, q | r in rs && q in r.rules :: q.action)
  {
    if rs == [] then [] else RegionRuleNodes(rs[..|rs| - 1]) + rs[|rs| - 1].RuleNodes()
  }

  /** The region elements. */
  function RegionNodes(rs: seq<Region>, fmt: real -> string): (ns: seq<Node>)
    ensures |ns| == |rs|
    ensures forall j :: 0 <= j < |rs| ==> ns[j] == rs[j].Node(fmt)
  {
    if rs == [] then [] else [rs[0].Node(fmt)] + RegionNodes(rs[1..], fmt)
  }

  /** The name attribute of the regions element, written only for a non-empty name. */
  function NameAttr(name: Option<string>): seq<(string, string)>
  {
    if name.Some? && name.value != "" then [("name", name.value)] else []
  }

  /** The rules among three optional slots that are set, in slot order. */
  function PresentRules(first: Rule?, second: Rule?, third: Rule?): seq<Rule>
  {
    (if first != null then [first] else [])
    + (if second != null then [second] else [])
    + (if third != null then [third] else [])
  }

  /** The global rules rulesToXML writes as coded: startup, then the actor-entry rule twice. */
  function WrittenGlobalRules(onStartup: Rule?, actorEntry: Rule?, actorExit: Rule?): seq<Rule>
  {
    PresentRules(onStartup, actorEntry, actorEntry)
  }

  /** The global rules a rules document evidently should hold: each configured slot once. */
  function IntendedGlobalRules(onStartup: Rule?, actorEntry: Rule?, actorExit: Rule?): seq<Rule>
  {
    PresentRules(onStartup, actorEntry, actorExit)
  }

  /**
   * rulesToXML as coded: its text is the rules document holding the startup
   * rule and the actor-entry rule twice, so a configured actor-exit rule is
   * lost and the actor-entry rule is written twice.
   */
  lemma ExitRuleNotWritten(onStartup: Rule?, actorEntry: Rule?, actorExit: Rule?, local: seq<Node>)
    requires actorExit != null && actorExit != actorEntry && actorExit != onStartup
    ensures "<rules>\n" + (OptionalRuleText(onStartup) + OptionalRuleText(actorEntry) + OptionalRuleText(actorEntry))
            + RenderAll(local, 1) + "</rules>\n"
         == Render(Branch("rules", [], RuleNodesOf(WrittenGlobalRules(onStartup, actorEntry, actorExit)) + local), 0)
    ensures actorExit !in WrittenGlobalRules(onStartup, actorEntry, actorExit)
    ensures actorEntry != null ==> multiset(WrittenGlobalRules(onStartup, actorEntry, actorExit))[actorEntry] >= 2
  {
    var s := if onStartup != null then [onStartup] else [];
    var e := if actorEntry != null then [actorEntry] else [];
    assert WrittenGlobalRules(onStartup, actorEntry, actorExit) == s + e + e;
    assert actorExit !in s + e + e;
    assert actorEntry != null ==> multiset(s + e + e)[actorEntry] >= 2;
    RulesOutText(onStartup, actorEntry, actorEntry, local);
  }

  /** The intended list writes exactly the configured slots, each once when they are distinct. */
  lemma IntendedGlobalRulesComplete(onStartup: Rule?, actorEntry: Rule?, actorExit: Rule?)
    ensures forall q: Rule :: q in IntendedGlobalRules(onStartup, actorEntry, actorExit) <==>
      (q == onStartup || q == actorEntry || q == actorExit)
    ensures onStartup != actorEntry && actorEntry != actorExit && onStartup != actorExit ==>
      var written := IntendedGlobalRules(onStartup, actorEntry, actorExit);
      forall i, j :: 0 <= i < j < |written| ==> written[i] != written[j]
  {
  }

  /** The rules element: the global rules, then the region rules, one level in. */
  lemma RulesDocumentText(globals: seq<Node>, local: seq<Node>)
    ensures "<rules>\n" + RenderAll(globals, 1) + RenderAll(local, 1) + "</rules>\n"
         == Render(Branch("rules", [], globals + local), 0)
  {
    RenderAllAppend(globals, local, 1);
    TopLevelText("rules", [], globals + local);
    assert AttrsText([]) == "";
    assert "<" + "rules" + "" + ">\n" == "<rules>\n";
    assert "</" + "rules" + ">\n" == "</rules>\n";
  }

  /**
   * Space.towards: one test-walk step of at most step toward goal along one
   * axis; within step of the goal it lands on the goal.
   */
  function Towards(current: real, goal: real, step: real): (r: real)
    ensures step >= 0.0 ==> Abs(goal - r) == Max(Abs(goal - current) - step, 0.0)
    ensures step >= 0.0 ==> Abs(r - current) == Min(step, Abs(goal - current))
    ensures step >= 0.0 ==> (current <= r <= goal || goal <= r <= current)
  {
    if goal - current > step then current + step
    else if current - goal > step then current - step
    else goal
  }

  function Abs(x: real): real { if x < 0.0 then -x else x }
  function Max(a: real, b: real): real { if a < b then b else a }
  function Min(a: real, b: real): real { if a < b then a else b }

  // ---------------------------------------------------------------------------

  /** A room: its regions, their rules, the global rules and the one-shot startup flag. */
  class Space {
    var name: Option<string>
    var regions: seq<Region>
    var fileBase: Option<string>
    var started: bool
    var onStartup: Rule?
    var actorEntry: Rule?
    var actorExit: Rule?

    /**
     * Every region is valid and added once, and each global slot holds a
     * global rule for its own event.
     */
    ghost predicate Valid()
      reads this`regions, this`onStartup, this`actorEntry, this`actorExit, (set r | r in regions)`rules
    {
      (forall r :: r in regions ==> r.Valid())
      && (forall i, j :: 0 <= i < j < |regions| ==> regions[i] != regions[j])
      && GlobalSlot(onStartup, STARTUP) && GlobalSlot(actorEntry, ENTRY) && GlobalSlot(actorExit, EXIT)
    }

    /** A new space has no name, prefix, regions or global rules, and has not started. */
    constructor ()
      ensures name.None? && fileBase.None? && regions == [] && !started
      ensures onStartup == null && actorEntry == null && actorExit == null
      ensures Valid()
    {
      name := None;
      regions := [];
      fileBase := None;
      started := false;
      onStartup := null;
      actorEntry := null;
      actorExit := null;
    }

    method SetName(newName: Option<string>)
      modifies this`name
      ensures name == newName
    {
      name := newName;
    }

    /** Sets the prefix under which loaded resource names are resolved. */
    method SetPrefix(prefix: Option<string>)
      modifies this`fileBase
      ensures fileBase == prefix
    {
      fileBase := prefix;
    }

    /** Appends a region; it is then the last one. */
    method AddRegion(r: Region)
      requires Valid() && r.Valid() && r !in regions
      modifies this`regions
      ensures regions == old(regions) + [r]
      ensures Valid()
    {
      regions := regions + [r];
    }

    /** Space.getRegion(int): the num-th region added, counting from 0. */
    method GetRegionAt(num: int) returns (res: Result<Region, string>)
      ensures 0 <= num < |regions| ==> res == Success(regions[num])
      ensures num < 0 || |regions| <= num ==> res.Failure?
    {
      var n := 0;
      while n < |regions|
        invariant 0 <= n <= |regions|
        invariant num < 0 || n <= num
      {
        if n == num {
          return Success(regions[n]);
        }
        n := n + 1;
      }
      return Failure("illegal region index:" + IntToString(num));
    }

    /** Space.getRegion(String): the first region with that name. */
    method GetRegionNamed(regionName: string) returns (res: Result<Region, string>)
      ensures res.Failure? <==> forall i :: 0 <= i < |regions| ==> regions[i].name != regionName
      ensures res.Success? ==> exists i :: (0 <= i < |regions| && regions[i] == res.value
                                            && regions[i].name == regionName
                                            && forall j :: 0 <= j < i ==> regions[j].name != regionName)
    {
      var i := 0;
      while i < |regions|
        invariant 0 <= i <= |regions|
        invariant forall j :: 0 <= j < i ==> regions[j].name != regionName
      {
        if regions[i].name == regionName {
          return Success(regions[i]);
        }
        i := i + 1;
      }
      return Failure("unknown region:" + regionName);
    }

    /** The calls the startup rule makes before the first report, when it is still due. */
    method EnsureStarted() returns (calls: seq<MediaCall>)
      requires Valid()
      modifies this`started
      ensures started
      ensures calls == StartupCalls(old(started), onStartup)
    {
      calls := [];
      if !started {
        if onStartup != null {
          var fired;
          fired, calls := onStartup.CheckTriggered(STARTUP);
        }
        started := true;
      }
    }

    /** Space.addActor: startup if still due, then the actor-entry rule if there is one. */
    method AddActor(a: Actor) returns (calls: seq<MediaCall>)
      requires Valid()
      modifies this`started
      ensures Valid() && started
      ensures calls == old(StartupCalls(started, onStartup)) + GlobalCalls(actorEntry)
    {
      calls := EnsureStarted();
      if actorEntry != null {
        var fired, c := actorEntry.CheckTriggered(ENTRY);
        calls := calls + c;
      }
    }

    /** Space.dropActor: the actor-exit rule if there is one; the startup flag is left alone. */
    method DropActor(a: Actor) returns (calls: seq<MediaCall>)
      requires Valid()
      ensures calls == GlobalCalls(actorExit)
    {
      calls := [];
      if actorExit != null {
        var fired;
        fired, calls := actorExit.CheckTriggered(EXIT);
      }
    }

    /**
     * Space.processPosition: startup if still due; then, for an actor with a
     * position, every region processes the report in order and the result
     * says whether any of them fired a rule. Regions are independent: each
     * ends in the state its own outcome gives.
     */
    method ProcessPosition(a: Actor?, pos: Option<Coord>) returns (changes: bool, calls: seq<MediaCall>)
      requires Valid()
      modifies this`started, (set r | r in regions)`state
      ensures started && Valid()
      ensures a == null || pos.None? ==>
        !changes && calls == old(StartupCalls(started, onStartup))
        && forall j :: 0 <= j < |regions| ==> regions[j].state == old(regions[j].state)
      ensures a != null && pos.Some? ==>
        var outs := old(Outcomes(regions, a.lastPosition, pos.value));
        changes == AnyFired(outs)
        && calls == old(StartupCalls(started, onStartup)) + AllCalls(outs)
        && forall j :: 0 <= j < |regions| ==> regions[j].state == outs[j].state
    {
      ghost var outs := if a != null && pos.Some? then Outcomes(regions, a.lastPosition, pos.value) else [];
      calls := EnsureStarted();
      if a == null || pos.None? {
        return false, calls;
      }
      assert Outcomes(regions, a.lastPosition, pos.value) == outs;
      var regionCalls;
      changes, regionCalls := OfferToRegions(regions, a, pos.value);
      calls := calls + regionCalls;
    }

    /**
     * Applies one rule record: builds the action from its children, then
     * attaches the rule to the named region, stores it in a global slot, or
     * drops it. An unknown region fails the load and changes nothing.
     */
    method LoadRule(rec: RuleRecord) returns (res: Result<Option<Rule>, string>)
      requires Valid()
      modifies this`onStartup, this`actorEntry, this`actorExit, (set r | r in regions)`rules
      ensures Valid()
      ensures res.Failure? <==> Unknown(regions, rec)
      ensures res.Failure? ==> RulesKept(regions, null)
      ensures res.Success? ==> LoadedOne(regions, rec, res.value)
      ensures res.Success? && res.value.Some? ==> ActionFrom(res.value.value.action, rec, fileBase)
      ensures res.Success? && res.value.Some? ==> fresh(res.value.value) && fresh(res.value.value.action)
      ensures res.Success? ==> forall k :: 0 <= k < |regions| ==> regions[k].rules == old(regions[k].rules) + OwnRule(res.value, regions[k])
      ensures RecordTarget(rec) == EntrySlot ==> res == Success(Some(actorEntry)) && actorExit == old(actorExit) && onStartup == old(onStartup)
      ensures RecordTarget(rec) == ExitSlot ==> res == Success(Some(actorExit)) && actorEntry == old(actorEntry) && onStartup == old(onStartup)
      ensures RecordTarget(rec) == StartupSlot ==> res == Success(Some(onStartup)) && actorEntry == old(actorEntry) && actorExit == old(actorExit)
      ensures RecordTarget(rec).ToRegion? || RecordTarget(rec) == Dropped ==>
        onStartup == old(onStartup) && actorEntry == old(actorEntry) && actorExit == old(actorExit)
    {
      var action := BuildAction(fileBase, rec.actions);
      var etype := ParseEventType(rec.event);
      var iState := DefaultState(rec.state);
      var nState := DefaultState(rec.next);
      match Route(rec.region, etype)
      case ToRegion(regionName) =>
        var found := GetRegionNamed(regionName);
        if found.Failure? {
          return Failure(found.error);
        }
        var region := found.value;
        FirstNamedIs(regions, regionName, region);
        var q := AttachRule(rec.name, etype, iState, nState, action, region);
        return Success(Some(q));
      case EntrySlot =>
        actorEntry := new Rule(rec.name, Global, etype, -1, -1, action);
        return Success(Some(actorEntry));
      case ExitSlot =>
        actorExit := new Rule(rec.name, Global, etype, -1, -1, action);
        return Success(Some(actorExit));
      case StartupSlot =>
        onStartup := new Rule(rec.name, Global, etype, -1, -1, action);
        return Success(Some(onStartup));
      case Dropped =>
        return Success(None);
    }

    /** Creates a rule for one of this space's regions; only that region's rule list changes. */
    method AttachRule(ruleName: string, etype: EventType, iState: int, nState: int, action: RegionEvent, region: Region)
      returns (q: Rule)
      requires Valid() && region in regions
      modifies region`rules
      ensures fresh(q) && q.name == ruleName && q.event == etype && q.action == action
      ensures q.initState == iState && q.nextState == nState
      ensures q.scope == Local(region) && region.rules == old(region.rules) + [q]
      ensures Valid()
    {
      q := new Rule(ruleName, Local(region), etype, iState, nState, action);
    }

    /**
     * Space.readRules over parsed records: loads them in order and stops at
     * the first record naming an unknown region, keeping the rules loaded
     * before it and loading none after it. The ghost made lists the rules
     * made, one entry per record that was loaded. Each region's list grows by
     * the rules made for it, in record order; each global slot holds the rule
     * made from the last record routed to it, or its old rule.
     */
    method ReadRules(records: seq<RuleRecord>) returns (res: Result<(), string>, ghost made: seq<Option<Rule>>)
      requires Valid()
      modifies this`onStartup, this`actorEntry, this`actorExit, (set r | r in regions)`rules
      ensures Valid()
      ensures res.Failure? <==> exists i :: 0 <= i < |records| && Unknown(regions, records[i])
      ensures |made| <= |records|
      ensures res.Success? <==> |made| == |records|
      ensures res.Failure? ==> Unknown(regions, records[|made|])
      ensures Loaded(regions, records[..|made|], made)
      ensures forall j :: 0 <= j < |made| && made[j].Some? ==> ActionFrom(made[j].value.action, records[j], fileBase)
      ensures forall k :: 0 <= k < |regions| ==> regions[k].rules == old(regions[k].rules) + LocalRulesOf(made, regions[k])
      ensures actorEntry == LastMade(records[..|made|], made, EntrySlot, old(actorEntry))
      ensures actorExit == LastMade(records[..|made|], made, ExitSlot, old(actorExit))
      ensures onStartup == LastMade(records[..|made|], made, StartupSlot, old(onStartup))
    {
      made := [];
      var i := 0;
      ghost var base := RuleLists(regions);
      ghost var initial := Globals();
      assert records[..0] == [];
      ListsAfterNothing(regions, base);
      while i < |records|
        invariant i == |made| && regions == old(regions)
        invariant LoadedSoFar(records, made, base, initial)
      {
        var r;
        r, made := LoadNext(records, i, made, base, initial);
        if r.Failure? {
          res := Failure(r.error);
          LoadedSoFarMeans(records, made, base, initial);
          return;
        }
        i := i + 1;
      }
      LoadedSoFarMeans(records, made, base, initial);
      res := Success(());
    }

    /** The three global slots. */
    function Globals(): GlobalRules
      reads this`onStartup, this`actorEntry, this`actorExit
    {
      GlobalRules(onStartup, actorEntry, actorExit)
    }

    /**
     * What a load has done after its first |made| records: the space is
     * valid, each of those records has its rule and action, each region's
     * list is its base list followed by the rules made for it, and each
     * global slot holds the last rule routed to it, or its initial rule.
     */
    ghost predicate LoadedSoFar(records: seq<RuleRecord>, made: seq<Option<Rule>>, base: seq<seq<Rule>>,
                                initial: GlobalRules)
      reads this, (set r | r in regions)`rules, (set m | m in made && m.Some? :: m.value.action)
    {
      Valid() && ActionsFrom(records, made, fileBase)
      && LoadProgress(regions, records, made, base, RuleLists(regions), Globals(), initial)
    }

    /** LoadedSoFar spelled out. */
    lemma LoadedSoFarMeans(records: seq<RuleRecord>, made: seq<Option<Rule>>, base: seq<seq<Rule>>,
                           initial: GlobalRules)
      requires LoadedSoFar(records, made, base, initial)
      ensures Valid() && |made| <= |records|
      ensures Loaded(regions, records[..|made|], made)
      ensures forall j :: 0 <= j < |made| && made[j].Some? ==> ActionFrom(made[j].value.action, records[j], fileBase)
      ensures forall k :: 0 <= k < |regions| ==> regions[k].rules == base[k] + LocalRulesOf(made, regions[k])
      ensures actorEntry == LastMade(records[..|made|], made, EntrySlot, initial.entry)
      ensures actorExit == LastMade(records[..|made|], made, ExitSlot, initial.exit)
      ensures onStartup == LastMade(records[..|made|], made, StartupSlot, initial.startup)
    {
    }

    /**
     * One pass of the readRules loop: loads the next record and, unless it
     * names an unknown region, extends what the load has made so far by its rule.
     */
    method LoadNext(records: seq<RuleRecord>, i: int, ghost made: seq<Option<Rule>>, ghost base: seq<seq<Rule>>,
                    ghost initial: GlobalRules)
      returns (res: Result<(), string>, ghost grown: seq<Option<Rule>>)
      requires i == |made| < |records|
      requires LoadedSoFar(records, made, base, initial)
      modifies this`onStartup, this`actorEntry, this`actorExit, (set r | r in regions)`rules
      ensures LoadedSoFar(records, grown, base, initial)
      ensures res.Failure? <==> Unknown(regions, records[|made|])
      ensures res.Failure? ==> grown == made
      ensures res.Success? ==> |grown| == |made| + 1 && grown[..|made|] == made
    {
      ghost var lists, globals := RuleLists(regions), Globals();
      var r := LoadStep(records[i], records, made);
      if r.Failure? {
        res, grown := Failure(r.error), made;
        return;
      }
      var m := r.value;
      ActionsFromStep(records, made, fileBase, m);
      LoadProgressStep(regions, records, made, base, lists, globals, initial, m);
      res, grown := Success(()), made + [m];
    }

    /**
     * LoadRule with its effect stated on whole values: the rule lists grow
     * by the new rule and the slots move by SlotStep; the actions of the
     * rules made before are left alone.
     */
    method LoadStep(rec: RuleRecord, ghost records: seq<RuleRecord>, ghost made: seq<Option<Rule>>)
      returns (res: Result<Option<Rule>, string>)
      requires Valid() && ActionsFrom(records, made, fileBase)
      modifies this`onStartup, this`actorEntry, this`actorExit, (set r | r in regions)`rules
      ensures Valid() && ActionsFrom(records, made, fileBase)
      ensures res.Failure? <==> Unknown(regions, rec)
      ensures res.Failure? ==> RuleLists(regions) == old(RuleLists(regions)) && Globals() == old(Globals())
      ensures res.Success? ==> LoadedOne(regions, rec, res.value)
      ensures res.Success? && res.value.Some? ==> ActionFrom(res.value.value.action, rec, fileBase)
      ensures res.Success? ==> RuleLists(regions) == GrowLists(old(RuleLists(regions)), regions, res.value)
      ensures res.Success? ==> Globals() == SlotStep(old(Globals()), RecordTarget(rec), res.value)
    {
      res := LoadRule(rec);
    }

    /** Space.regionsToXML, with fmt standing for Java's float formatting. */
    method RegionsToXML(fmt: real -> string) returns (out: string)
      ensures out == Render(Branch("regions", NameAttr(name), RegionNodes(regions, fmt)), 0)
    {
      var attrs := "";
      if name.Some? && name.value != "" {
        attrs := " name=\"" + name.value + "\"";
      }
      var body := "";
      var i := 0;
      while i < |regions|
        invariant 0 <= i <= |regions|
        invariant body == RenderAll(RegionNodes(regions[..i], fmt), 1)
      {
        RegionsStep(regions, i, fmt);
        body := body + regions[i].ToXML(fmt);
        i := i + 1;
      }
      assert regions[..|regions|] == regions;
      out := "<regions" + attrs + ">\n" + body + "</regions>\n";
      RegionsDocumentText(name, RegionNodes(regions, fmt), attrs);
    }

    /**
     * Space.rulesToXML, corrected: the startup rule, the actor-entry rule and
     * the actor-exit rule, each when set, then each region's rules. (As coded
     * the third test writes the actor-entry rule again; see ExitRuleNotWritten.)
     */
    method RulesToXML() returns (out: string)
      ensures out == Render(Branch("rules", [], RuleNodesOf(IntendedGlobalRules(onStartup, actorEntry, actorExit))
                                               + RegionRuleNodes(regions)), 0)
    {
      var globals := OptionalRuleText(onStartup) + OptionalRuleText(actorEntry) + OptionalRuleText(actorExit);
      var body := RegionRulesText(regions);
      RulesOutText(onStartup, actorEntry, actorExit, RegionRuleNodes(regions));
      out := "<rules>\n" + globals + body + "</rules>\n";
    }
  }

  /**
   * The second half of rulesToXML: each region's rules in turn, one level in.
   * A region's text is the rendering Region.RulesToXML is proved to return.
   */
  method RegionRulesText(rs: seq<Region>) returns (body: string)
    ensures body == RenderAll(RegionRuleNodes(rs), 1)
  {
    body := "";
    var i := 0;
    while i < |rs|
      invariant 0 <= i <= |rs|
      invariant body == RenderAll(RegionRuleNodes(rs[..i]), 1)
    {
      var text := RenderAll(rs[i].RuleNodes(), 1);
      RegionRulesStep(rs, i, text);
      body := body + text;
      i := i + 1;
    }
    assert rs[..|rs|] == rs;
  }

  /** Every region of rs other than except keeps its rule list. */
  twostate predicate RulesKept(rs: seq<Region>, except: Region?)
    reads set r | r in rs
  {
    forall r :: r in rs && r != except ==> r.rules == old(r.rules)
  }

  /** The record names a region that is not among rs. */
  predicate Unknown(rs: seq<Region>, rec: RuleRecord)
  {
    RecordTarget(rec).ToRegion? && forall i :: 0 <= i < |rs| ==> rs[i].name != rec.region
  }

  /**
   * The action of a rule record: a fresh descriptor to which each child
   * image, sound or text element is applied in order.
   */
  method BuildAction(prefix: Option<string>, elems: seq<ActionElement>) returns (e: RegionEvent)
    ensures fresh(e)
    ensures e.imageFile == LastBinding(elems, "image", prefix)
    ensures e.soundFile == LastBinding(elems, "sound", prefix)
    ensures e.textFile == LastBinding(elems, "text", prefix)
  {
    e := new RegionEvent();
    var i := 0;
    while i < |elems|
      invariant 0 <= i <= |elems|
      invariant e.imageFile == LastBinding(elems[..i], "image", prefix)
      invariant e.soundFile == LastBinding(elems[..i], "sound", prefix)
      invariant e.textFile == LastBinding(elems[..i], "text", prefix)
    {
      assert elems[..i + 1][..i] == elems[..i];
      var p := elems[i];
      if p.tag == "image" {
        e.SetImage(FileBinding(prefix, p.file));
      }
      if p.tag == "sound" {
        e.SetSound(FileBinding(prefix, p.file));
      }
      if p.tag == "text" {
        e.SetText(FileBinding(prefix, p.file));
      }
      i := i + 1;
    }
    assert elems[..|elems|] == elems;
  }

  /**
   * The loop of Space.processPosition: every region of rs processes the
   * report in turn, each ending in the state its own outcome gives.
   */
  method OfferToRegions(rs: seq<Region>, a: Actor, pos: Coord) returns (changes: bool, calls: seq<MediaCall>)
    requires forall j, k :: 0 <= j < k < |rs| ==> rs[j] != rs[k]
    requires forall j :: 0 <= j < |rs| ==> rs[j].Valid()
    modifies (set r | r in rs)`state
    ensures var outs := old(Outcomes(rs, a.lastPosition, pos));
      changes == AnyFired(outs)
      && calls == AllCalls(outs)
      && forall j :: 0 <= j < |rs| ==> rs[j].state == outs[j].state
  {
    var last := a.lastPosition;
    ghost var outs := Outcomes(rs, last, pos);
    changes, calls := false, [];
    var i := 0;
    while i < |rs|
      invariant 0 <= i <= |rs|
      invariant forall j :: 0 <= j < |rs| ==> rs[j].Valid()
      invariant a.lastPosition == last
      invariant Settled(rs, outs, i) && Pending(rs, last, pos, outs, i)
      invariant changes == AnyFired(outs[..i])
      invariant calls == AllCalls(outs[..i])
    {
      var did, c := OfferToRegion(rs, i, rs[i], a, last, pos, outs);
      AnyFiredSnoc(outs, i);
      AllCallsSnoc(outs, i);
      changes := changes || did;
      calls := calls + c;
      i := i + 1;
    }
    assert outs[..|rs|] == outs;
  }

  /** The regions before i are in the states outs gives them. */
  ghost predicate Settled(rs: seq<Region>, outs: seq<Pass>, i: int)
    reads set r | r in rs
  {
    forall j :: 0 <= j < i && j < |rs| && j < |outs| ==> rs[j].state == outs[j].state
  }

  /** The regions from i on would still do what outs says. */
  ghost predicate Pending(rs: seq<Region>, last: Option<Coord>, pos: Coord, outs: seq<Pass>, i: int)
    reads (set r | r in rs), (set r, q | r in rs && q in r.rules :: q.action)
  {
    forall j :: 0 <= i <= j < |rs| && j < |outs| ==> rs[j].Outcome(last, pos) == outs[j]
  }

  /** The i-th region processes the report; the regions after it would still do what outs says. */
  method OfferToRegion(rs: seq<Region>, i: int, r: Region, a: Actor, ghost last: Option<Coord>, pos: Coord,
                       ghost outs: seq<Pass>)
    returns (did: bool, c: seq<MediaCall>)
    requires 0 <= i < |rs| == |outs| && rs[i] == r && a.lastPosition == last
    requires forall j, k :: 0 <= j < k < |rs| ==> rs[j] != rs[k]
    requires forall j :: 0 <= j < |rs| ==> rs[j].Valid()
    requires Settled(rs, outs, i) && Pending(rs, last, pos, outs, i)
    modifies r`state
    ensures did == outs[i].fired && c == outs[i].calls
    ensures forall j :: 0 <= j < |rs| ==> rs[j].Valid()
    ensures Settled(rs, outs, i + 1) && Pending(rs, last, pos, outs, i + 1)
  {
    did, c := r.ProcessPosition(a, pos);
    forall j | 0 <= j < |rs| && j != i
      ensures rs[j].state == old(rs[j].state)
      ensures rs[j].Outcome(last, pos) == old(rs[j].Outcome(last, pos))
    {
      assert rs[j] != r;
    }
  }

  /** A longer sequence of passes has fired exactly when the shorter one has or the new pass has. */
  lemma AnyFiredSnoc(ps: seq<Pass>, i: int)
    requires 0 <= i < |ps|
    ensures AnyFired(ps[..i + 1]) <==> AnyFired(ps[..i]) || ps[i].fired
  {
    if AnyFired(ps[..i]) {
      var j :| 0 <= j < i && ps[..i][j].fired;
      assert ps[..i + 1][j] == ps[j];
    }
    if ps[i].fired {
      assert ps[..i + 1][i] == ps[i];
    }
  }

  lemma AllCallsSnoc(ps: seq<Pass>, i: int)
    requires 0 <= i < |ps|
    ensures AllCalls(ps[..i + 1]) == AllCalls(ps[..i]) + ps[i].calls
  {
    assert ps[..i + 1][..i] == ps[..i];
  }

  /** A rule carries the name, event and states of the record it was made from. */
  predicate RuleFrom(q: Rule, rec: RuleRecord)
  {
    q.name == rec.name && q.event == ParseEventType(rec.event)
    && (if RecordTarget(rec).ToRegion?
        then q.initState == DefaultState(rec.state) && q.nextState == DefaultState(rec.next)
        else q.scope == Global && q.initState == -1 && q.nextState == -1)
  }

  /** An action carries the bindings of a record's children, resolved under prefix. */
  predicate ActionFrom(e: RegionEvent, rec: RuleRecord, prefix: Option<string>)
    reads e
  {
    e.imageFile == LastBinding(rec.actions, "image", prefix)
    && e.soundFile == LastBinding(rec.actions, "sound", prefix)
    && e.textFile == LastBinding(rec.actions, "text", prefix)
  }

  /**
   * What a load did with the records before its end: made[j] is the rule
   * made from records[j] (none for a dropped record).
   */
  predicate Loaded(rs: seq<Region>, records: seq<RuleRecord>, made: seq<Option<Rule>>)
  {
    |made| == |records| && forall j :: 0 <= j < |made| ==> LoadedOne(rs, records[j], made[j])
  }

  /**
   * The outcome m of loading one record that names no unknown region: none
   * iff the record is dropped, and a local rule belongs to the first region
   * of the record's region name.
   */
  predicate LoadedOne(rs: seq<Region>, rec: RuleRecord, m: Option<Rule>)
  {
    !Unknown(rs, rec)
    && (m.None? <==> RecordTarget(rec) == Dropped)
    && match m
       case None => true
       case Some(q) =>
         RuleFrom(q, rec)
         && (RecordTarget(rec).ToRegion? ==> q.scope == Local(FirstNamed(rs, rec.region)))
  }

  /** One more loaded record keeps Loaded. */
  lemma LoadedStep(rs: seq<Region>, records: seq<RuleRecord>, i: int, made: seq<Option<Rule>>, m: Option<Rule>)
    requires 0 <= i < |records| && |made| == i
    requires Loaded(rs, records[..i], made)
    requires LoadedOne(rs, records[i], m)
    ensures Loaded(rs, records[..i + 1], made + [m])
  {
    assert records[..i + 1][..i] == records[..i];
  }


  /** The rules held in the three global slots: startup, actor entry, actor exit. */
  datatype GlobalRules = GlobalRules(startup: Rule?, entry: Rule?, exit: Rule?)

  /** Each rule made by a load has the action of its record, resolved under prefix. */
  ghost predicate ActionsFrom(records: seq<RuleRecord>, made: seq<Option<Rule>>, prefix: Option<string>)
    reads set m | m in made && m.Some? :: m.value.action
  {
    forall j :: 0 <= j < |made| && j < |records| && made[j].Some? ==> ActionFrom(made[j].value.action, records[j], prefix)
  }

  lemma ActionsFromStep(records: seq<RuleRecord>, made: seq<Option<Rule>>, prefix: Option<string>, m: Option<Rule>)
    requires |made| < |records| && ActionsFrom(records, made, prefix)
    requires m.Some? ==> ActionFrom(m.value.action, records[|made|], prefix)
    ensures ActionsFrom(records, made + [m], prefix)
  {
    forall j | 0 <= j < |made| + 1 && (made + [m])[j].Some?
      ensures ActionFrom((made + [m])[j].value.action, records[j], prefix)
    {
      if j < |made| {
        assert (made + [m])[j] == made[j];
      }
    }
  }

  /** The regions' rule lists after a load that made made: each base list followed by the rules made for it. */
  function ListsAfter(rs: seq<Region>, base: seq<seq<Rule>>, made: seq<Option<Rule>>): (ls: seq<seq<Rule>>)
    requires |base| == |rs|
    ensures |ls| == |rs| && forall k :: 0 <= k < |rs| ==> ls[k] == base[k] + LocalRulesOf(made, rs[k])
  {
    seq(|rs|, k requires 0 <= k < |rs| => base[k] + LocalRulesOf(made, rs[k]))
  }

  lemma ListsAfterNothing(rs: seq<Region>, base: seq<seq<Rule>>)
    requires |base| == |rs|
    ensures ListsAfter(rs, base, []) == base
  {
    forall k | 0 <= k < |rs| ensures ListsAfter(rs, base, [])[k] == base[k] {
      assert LocalRulesOf([], rs[k]) == [];
    }
  }

  /** The global slots after a load: each holds the last rule routed to it, or its initial rule. */
  function SlotsAfter(records: seq<RuleRecord>, made: seq<Option<Rule>>, initial: GlobalRules): GlobalRules
    requires |made| == |records|
  {
    GlobalRules(LastMade(records, made, StartupSlot, initial.startup),
                LastMade(records, made, EntrySlot, initial.entry),
                LastMade(records, made, ExitSlot, initial.exit))
  }

  /** Rule lists with m appended to its own region's list. */
  function GrowLists(lists: seq<seq<Rule>>, rs: seq<Region>, m: Option<Rule>): (ls: seq<seq<Rule>>)
    requires |lists| == |rs|
    ensures |ls| == |rs| && forall k :: 0 <= k < |rs| ==> ls[k] == lists[k] + OwnRule(m, rs[k])
  {
    seq(|rs|, k requires 0 <= k < |rs| => lists[k] + OwnRule(m, rs[k]))
  }

  /** The slots after a rule m routed to target: the target slot holds m. */
  function SlotStep(g: GlobalRules, target: Target, m: Option<Rule>): GlobalRules
  {
    if m.None? then g
    else match target
      case StartupSlot => g.(startup := m.value)
      case EntrySlot => g.(entry := m.value)
      case ExitSlot => g.(exit := m.value)
      case _ => g
  }

  /**
   * The heap-free part of a load's progress: the first |made| records are
   * loaded as made, the regions' rule lists are their base lists followed by
   * the rules made for them, and the slots hold the last rule routed to each.
   */
  predicate LoadProgress(rs: seq<Region>, records: seq<RuleRecord>, made: seq<Option<Rule>>, base: seq<seq<Rule>>,
                         lists: seq<seq<Rule>>, globals: GlobalRules, initial: GlobalRules)
  {
    |made| <= |records| && |base| == |rs|
    && Loaded(rs, records[..|made|], made)
    && lists == ListsAfter(rs, base, made)
    && globals == SlotsAfter(records[..|made|], made, initial)
  }

  /** Loading one more record, as LoadRule does, extends the progress by its rule. */
  lemma LoadProgressStep(rs: seq<Region>, records: seq<RuleRecord>, made: seq<Option<Rule>>, base: seq<seq<Rule>>,
                         lists: seq<seq<Rule>>, globals: GlobalRules, initial: GlobalRules, m: Option<Rule>)
    requires |made| < |records| && LoadProgress(rs, records, made, base, lists, globals, initial)
    requires LoadedOne(rs, records[|made|], m)
    ensures LoadProgress(rs, records, made + [m], base, GrowLists(lists, rs, m),
                         SlotStep(globals, RecordTarget(records[|made|]), m), initial)
  {
    LastMadeStep(records, made, m, EntrySlot, initial.entry);
    LastMadeStep(records, made, m, ExitSlot, initial.exit);
    LastMadeStep(records, made, m, StartupSlot, initial.startup);
    forall k | 0 <= k < |rs|
      ensures GrowLists(lists, rs, m)[k] == ListsAfter(rs, base, made + [m])[k]
    {
      LocalRulesStep(made, m, rs[k]);
    }
    LoadedStep(rs, records, |made|, made, m);
  }

  /** The rules of a load that are local to region r, in load order. */
  function LocalRulesOf(made: seq<Option<Rule>>, r: Region): seq<Rule>
  {
    if made == [] then []
    else
      var m := made[|made| - 1];
      LocalRulesOf(made[..|made| - 1], r) + OwnRule(m, r)
  }

  /** The rule made for the last record routed to target, or initial when there is none. */
  function LastMade(records: seq<RuleRecord>, made: seq<Option<Rule>>, target: Target, initial: Rule?): Rule?
    requires |made| == |records|
  {
    if records == [] then initial
    else if RecordTarget(records[|records| - 1]) == target && made[|made| - 1].Some? then made[|made| - 1].value
    else LastMade(records[..|records| - 1], made[..|made| - 1], target, initial)
  }

  /** Record j was loaded into the slot target. */
  predicate RoutedTo(records: seq<RuleRecord>, made: seq<Option<Rule>>, j: int, target: Target)
    requires |made| == |records|
  {
    0 <= j < |records| && RecordTarget(records[j]) == target && made[j].Some?
  }

  /** A slot ends with the rule made from the last record routed to it. */
  lemma {:induction false} LastMadeIsLast(records: seq<RuleRecord>, made: seq<Option<Rule>>, target: Target, initial: Rule?, j: int)
    requires |made| == |records|
    requires RoutedTo(records, made, j, target)
    requires forall k :: j < k < |records| ==> !RoutedTo(records, made, k, target)
    ensures LastMade(records, made, target, initial) == made[j].value
  {
    var n := |records| - 1;
    if j < n {
      var rs, ms := records[..n], made[..n];
      assert !RoutedTo(records, made, n, target);
      assert rs[j] == records[j] && ms[j] == made[j];
      forall k | j < k < n ensures !RoutedTo(rs, ms, k, target) {
        assert rs[k] == records[k] && ms[k] == made[k];
        assert !RoutedTo(records, made, k, target);
      }
      LastMadeIsLast(rs, ms, target, initial, j);
    }
  }

  /** A slot that no record is routed to keeps its initial rule. */
  lemma {:induction false} LastMadeUntouched(records: seq<RuleRecord>, made: seq<Option<Rule>>, target: Target, initial: Rule?)
    requires |made| == |records|
    requires forall k :: 0 <= k < |records| ==> !RoutedTo(records, made, k, target)
    ensures LastMade(records, made, target, initial) == initial
  {
    if records != [] {
      var n := |records| - 1;
      var rs, ms := records[..n], made[..n];
      assert !RoutedTo(records, made, n, target);
      forall k | 0 <= k < n ensures !RoutedTo(rs, ms, k, target) {
        assert rs[k] == records[k] && ms[k] == made[k];
        assert !RoutedTo(records, made, k, target);
      }
      LastMadeUntouched(rs, ms, target, initial);
    }
  }

  /** The rule m, when it is local to region r. */
  function OwnRule(m: Option<Rule>, r: Region): seq<Rule>
  {
    if m.Some? && m.value.scope == Local(r) then [m.value] else []
  }

  /** The rule lists of the regions rs, in order. */
  function RuleLists(rs: seq<Region>): (ls: seq<seq<Rule>>)
    reads (set r | r in rs)`rules
    ensures |ls| == |rs|
    ensures forall k :: 0 <= k < |rs| ==> ls[k] == rs[k].rules
  {
    if rs == [] then [] else RuleLists(rs[..|rs| - 1]) + [rs[|rs| - 1].rules]
  }

  lemma LocalRulesStep(made: seq<Option<Rule>>, m: Option<Rule>, r: Region)
    ensures LocalRulesOf(made + [m], r) == LocalRulesOf(made, r) + OwnRule(m, r)
  {
    assert (made + [m])[..|made|] == made;
  }

  lemma LastMadeStep(records: seq<RuleRecord>, made: seq<Option<Rule>>, m: Option<Rule>, target: Target, initial: Rule?)
    requires |made| < |records|
    ensures LastMade(records[..|made| + 1], made + [m], target, initial)
         == if RecordTarget(records[|made|]) == target && m.Some? then m.value
            else LastMade(records[..|made|], made, target, initial)
  {
    assert records[..|made| + 1][..|made|] == records[..|made|];
    assert (made + [m])[..|made|] == made;
  }

  /** The first region with a given name. */
  function FirstNamed(rs: seq<Region>, regionName: string): Region
    requires exists i :: 0 <= i < |rs| && rs[i].name == regionName
  {
    if rs[0].name == regionName then rs[0] else FirstNamed(rs[1..], regionName)
  }

  lemma {:induction false} FirstNamedIs(rs: seq<Region>, regionName: string, r: Region)
    requires exists i :: (0 <= i < |rs| && rs[i] == r && rs[i].name == regionName
                          && forall j :: 0 <= j < i ==> rs[j].name != regionName)
    ensures exists i :: 0 <= i < |rs| && rs[i].name == regionName
    ensures FirstNamed(rs, regionName) == r
  {
    var i :| 0 <= i < |rs| && rs[i] == r && rs[i].name == regionName
      && forall j :: 0 <= j < i ==> rs[j].name != regionName;
    if i > 0 {
      assert rs[1..][i - 1] == r;
      FirstNamedIs(rs[1..], regionName, r);
    }
  }

  lemma RegionNodesAppend(a: seq<Region>, b: seq<Region>, fmt: real -> string)
    ensures RegionNodes(a + b, fmt) == RegionNodes(a, fmt) + RegionNodes(b, fmt)
  {
  }

  /** One more region element written after the first i. */
  lemma RegionsStep(rs: seq<Region>, i: int, fmt: real -> string)
    requires 0 <= i < |rs|
    ensures RenderAll(RegionNodes(rs[..i], fmt), 1) + rs[i].ToXML(fmt) == RenderAll(RegionNodes(rs[..i + 1], fmt), 1)
  {
    var done, n := RegionNodes(rs[..i], fmt), rs[i].Node(fmt);
    assert rs[..i + 1] == rs[..i] + [rs[i]];
    RegionNodesAppend(rs[..i], [rs[i]], fmt);
    assert RegionNodes([rs[i]], fmt) == [n];
    RenderAllAppend(done, [n], 1);
    assert [n][1..] == [];
    assert RenderAll([n], 1) == Render(n, 1);
  }

  /** One more region's rule elements written after those of the first i. */
  lemma RegionRulesStep(rs: seq<Region>, i: int, text: string)
    requires 0 <= i < |rs|
    requires text == RenderAll(rs[i].RuleNodes(), 1)
    ensures RenderAll(RegionRuleNodes(rs[..i]), 1) + text == RenderAll(RegionRuleNodes(rs[..i + 1]), 1)
  {
    assert rs[..i + 1][..i] == rs[..i];
    assert RegionRuleNodes(rs[..i + 1]) == RegionRuleNodes(rs[..i]) + rs[i].RuleNodes();
    RenderAllAppend(RegionRuleNodes(rs[..i]), rs[i].RuleNodes(), 1);
  }

  /** The regions element: the name attribute only for a non-empty name, the regions one level in. */
  lemma RegionsDocumentText(name: Option<string>, children: seq<Node>, attrs: string)
    requires attrs == if name.Some? && name.value != "" then " name=\"" + name.value + "\"" else ""
    ensures "<regions" + attrs + ">\n" + RenderAll(children, 1) + "</regions>\n"
         == Render(Branch("regions", NameAttr(name), children), 0)
  {
    if name.Some? && name.value != "" {
      assert NameAttr(name)[1..] == [];
      assert " " + "name" + "=\"" == " name=\"";
      assert AttrsText(NameAttr(name)) == attrs;
    } else {
      assert AttrsText(NameAttr(name)) == attrs;
    }
    TopLevelText("regions", NameAttr(name), children);
    assert "<" + "regions" == "<regions";
    assert "</" + "regions" + ">\n" == "</regions>\n";
  }

  /** The text of the rule in a global slot, if any. */
  function OptionalRuleText(q: Rule?): string
    reads if q != null then {q.action} else {}
  {
    if q != null then q.ToXML() else ""
  }

  /** The rules document as rulesToXML assembles it: the text of three slots, then the regions' rule elements. */
  lemma RulesOutText(first: Rule?, second: Rule?, third: Rule?, local: seq<Node>)
    ensures "<rules>\n" + (OptionalRuleText(first) + OptionalRuleText(second) + OptionalRuleText(third))
            + RenderAll(local, 1) + "</rules>\n"
         == Render(Branch("rules", [], RuleNodesOf(PresentRules(first, second, third)) + local), 0)
  {
    GlobalRulesText(first, second, third);
    RulesDocumentText(RuleNodesOf(PresentRules(first, second, third)), local);
  }

  /** The elements of the set slots render to the slots' texts, one after the other. */
  lemma GlobalRulesText(first: Rule?, second: Rule?, third: Rule?)
    ensures RenderAll(RuleNodesOf(PresentRules(first, second, third)), 1)
         == OptionalRuleText(first) + OptionalRuleText(second) + OptionalRuleText(third)
  {
    var a := if first != null then [first] else [];
    var b := if second != null then [second] else [];
    var c := if third != null then [third] else [];
    RuleNodesOfAppend(a + b, c);
    RuleNodesOfAppend(a, b);
    RenderAllAppend(RuleNodesOf(a + b), RuleNodesOf(c), 1);
    RenderAllAppend(RuleNodesOf(a), RuleNodesOf(b), 1);
    SingleRuleText(a);
    SingleRuleText(b);
    SingleRuleText(c);
  }

  lemma SingleRuleText(rs: seq<Rule>)
    requires |rs| <= 1
    ensures RenderAll(RuleNodesOf(rs), 1) == if rs == [] then "" else rs[0].ToXML()
  {
    if rs != [] {
      var n := rs[0].Node();
      assert rs == [rs[0]];
      assert RuleNodesOf(rs) == [n];
      assert [n][1..] == [];
      assert RenderAll([n], 1) == Render(n, 1) + RenderAll([], 1);
    }
  }
}
