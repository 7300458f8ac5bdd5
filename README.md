# KinectRoom trigger engine, modelled in Dafny

KinectRoom turns a room into an interactive space. A depth sensor reports numbered
people (actors) and their positions. The room is divided into circular regions.
Each region holds an integer state and an ordered list of rules. A rule names an
event (ENTRY or EXIT), may require a region state, may move the region to a next
state, and carries an action: an image, a sound and a text binding. Firing the rule
drives the room's media player through the six MediaActions calls. Three global
rules belong to the space rather than to a region:
- a startup rule, run once before the first report;
- an actor-entry rule;
- an actor-exit rule.

The model covers the engine:
- points and distances (`Coords`);
- event names (`Events`);
- the entry/exit detector with its 5% hysteresis band (`Hysteresis`);
- actions and the media calls they make (`Media`);
- actors, rules and regions (`ActiveSpace`);
- the space that fans reports out to regions, loads rules and writes XML (`Spaces`);
- the sensor-facing room with its ten-slot actor table and least-recently-used eviction (`Kinected`).

Java objects whose fields are updated in place are Dafny classes with `modifies`
frames:
- Actor, Rule, Region, RegionEvent and Space;
- KinectedSpace, whose slot table is two arrays and a counter.

Each such class is tied to a value-level specification: `Table`/`Admit`/`Dismiss`,
`Region.Outcome`/`RunRules`, `Detect`, and `Render` for the XML emitters. The
properties are proved about those specifications.

Media playing is not performed. An action returns the trace of `MediaCall`s it would
make. The room appends the calls to its `played` field, in order.

Where the written description of the system and the code disagree, the model follows
the code:
- **Rules cascade.** The rules of one region are offered an event in registration
  order, and each rule sees the state left by the rules before it. So a rule 0→1
  followed by a rule 1→2 both fire on one event (`ActiveSpace.Cascade`).
- **Two versions of Rule and RegionEvent.** The `Rule.java` and `RegionEvent.java`
  of the Java-0.2 tree belong to an older revision than the `Space.java` and
  `Region.java` beside them:
  - they have no STARTUP event;
  - their `checkTriggered` takes no media object;
  - `callback` only prints;
  - the Rule constructor registers every rule with its region, so a global rule would
    fail on a null region.

  The model follows the revision that `Space.java` and `Region.java` call:
  - STARTUP is an event (`STARTUP`/`startup` parse to it);
  - global rules have no state filter or state change and are registered with no region;
  - they are written with `region="NONE"`;
  - `callback` drives the MediaActions capability, with `cancel` meaning stop.
- **The actor-exit rule is not written.** `Space.rulesToXML` writes the actor-entry
  rule twice and never writes the actor-exit rule. `Spaces.ExitRuleNotWritten` states
  the document as coded. `Spaces.Space.RulesToXML` writes each configured global rule
  once; see "## Findings".

## Model

| member | source | states |
|---|---|---|
| Text.NatToString | Java-0.2/src/KinectedSpace/KinectedSpace.java:118 | the decimal form of a number is a non-empty string of digits, one digit exactly when the number is below 10 |
| Text.IntToString | Java-0.2/src/KinectedSpace/KinectedSpace.java:118 | Java's int-to-string is non-empty and starts with '-' exactly for negative numbers |
| Text.IntToStringInjective | Java-0.2/src/KinectedSpace/KinectedSpace.java:118 | different ints are written differently |
| Kinected.ActorNameInjective | Java-0.2/src/KinectedSpace/KinectedSpace.java:118 | "Actor-" + m equals "Actor-" + n exactly when m == n, so a sensor number maps to a single actor name |
| Coords.Coord2D | Java-0.2/src/ActiveSpace/Coord.java:20-24 | the two-dimensional constructor keeps x and z and puts the point at y = 0 |
| Coords.SquaredDistProperties | Java-0.2/src/ActiveSpace/Coord.java:43-52 | the radicand of dist is never negative and is zero from a point to itself |
| Coords.SquaredDistSymmetric | Java-0.2/src/ActiveSpace/Coord.java:39-52 | distance from a to b equals distance from b to a |
| Coords.ThresholdComparisons | Java-0.2/src/ActiveSpace/Coord.java:46-52 | comparing the squared distance with a threshold decides exactly as comparing the true distance, for every threshold including negative ones |
| Coords.DistanceOrder | Java-0.2/src/ActiveSpace/Coord.java:46-52 | squared distances are ordered, and equal, exactly as the distances are |
| Coords.ToXML | Java-0.2/src/ActiveSpace/Coord.java:73-81 | the text written is a position element, two levels deep, with attributes x, y and z in that order |
| Events.ParseEventType | Java-0.2/src/ActiveSpace/Rule.java:16-22 | ENTRY iff "ENTRY" or "entry", EXIT iff "EXIT" or "exit", STARTUP iff "STARTUP" or "startup"; everything else is NONE |
| Events.ParseEventName | Java-0.2/src/ActiveSpace/Rule.java:16-22 | the event name toXML writes reads back as the same event |
| Events.MixedCaseIsNone | Java-0.2/src/ActiveSpace/Rule.java:16-22 | "Entry" and "Exit" are not recognised |
| Hysteresis.Detect | Java-0.2/src/ActiveSpace/Region.java:142-182 | the detector never yields STARTUP, and it yields EXIT only for an actor with a last position |
| Hysteresis.DetectMatchesDistances | Java-0.2/src/ActiveSpace/Region.java:145-182 | the detector over squared distances gives the same event as the rule stated over true distances: entry crossing r(1-0.05) while approaching, exit crossing r(1+0.05) while not approaching, first report entry only |
| Hysteresis.FirstReport | Java-0.2/src/ActiveSpace/Region.java:148-152 | a first report is an entry exactly when it lies within the inner threshold, and never an exit |
| Hysteresis.SameDistanceIsQuiet | Java-0.2/src/ActiveSpace/Region.java:167-181 | a report at the same distance as the last one yields no event |
| Hysteresis.BandIsQuiet | Java-0.2/src/ActiveSpace/Region.java:167-181 | a report strictly inside the hysteresis band yields no event, wherever the actor was |
| Hysteresis.EventsCrossThresholds | Java-0.2/src/ActiveSpace/Region.java:167-181 | an entry ends inside the inner threshold after approaching from outside it; an exit ends beyond the outer threshold after not approaching, from inside it |
| Hysteresis.DoorWalk | Java-0.2/src/ActiveSpace/Region.java:145-181 | a worked example, not a general property: for a region of radius 1000 at the origin, reports at x = 2000, 900, 100 and 1200 give nothing, an entry, nothing, an exit |
| Hysteresis.ReentryWithoutExit | Java-0.2/src/ActiveSpace/Region.java:167-181 | a worked example, not a general property: one walk on which, because the threshold follows the direction of the last move, a second entry is reported with no exit between |
| Media.RegionEvent.constructor | Java-0.2/src/ActiveSpace/RegionEvent.java:27-31 | a new action has no binding set |
| Media.RegionEvent.SetImage | Java-0.2/src/ActiveSpace/RegionEvent.java:39-41 | the image binding is replaced and nothing else changes |
| Media.RegionEvent.SetSound | Java-0.2/src/ActiveSpace/RegionEvent.java:49-51 | the sound binding is replaced and nothing else changes |
| Media.RegionEvent.SetText | Java-0.2/src/ActiveSpace/RegionEvent.java:59-61 | the text binding is replaced and nothing else changes |
| Media.RegionEvent.Callback | Java-0.2/src/ActiveSpace/RegionEvent.java:107-132 | each channel acts on its own binding alone: no call when unset, the stop call for "cancel", otherwise the start call with that file; calls come in the order image, sound, text, one per set binding |
| Media.CallbackChannels | Java-0.2/src/ActiveSpace/RegionEvent.java:107-132 | the three per-channel branches, concatenated, give that per-channel, ordered, counted trace |
| Media.RegionEvent.ToXML | Java-0.2/src/ActiveSpace/RegionEvent.java:81-90 | the text is the rendering of the action elements, two levels deep |
| Media.ActionNodesAreSetBindings | Java-0.2/src/ActiveSpace/RegionEvent.java:81-90 | one element is written per set binding: image first, text last, and only image, sound or text tags |
| Media.RegionEvent.ToString | Java-0.2/src/ActiveSpace/RegionEvent.java:66-76 | the text is the image, sound and text entries in that order, each name=value and present exactly when its binding is set, the image and sound entries followed by a blank |
| Media.ToStringLayout | Java-0.2/src/ActiveSpace/RegionEvent.java:66-76 | the text is empty iff no binding is set; it starts with the first set binding and ends with the text binding when set, otherwise with a blank |
| Media.Entry | Java-0.2/src/ActiveSpace/RegionEvent.java:69-74 | an entry is empty iff its binding is unset; otherwise it starts with name= and ends with its separator |
| ActiveSpace.Actor.constructor | KinectRoom/src/ActiveSpace/Actor.java:19-22 | a new actor has the given name and position and no last region |
| ActiveSpace.Actor.SetLastPosition | KinectRoom/src/ActiveSpace/Actor.java:29-31 | only the last position changes |
| ActiveSpace.Actor.SetLastEntered | KinectRoom/src/ActiveSpace/Actor.java:50-52 | only the last region entered changes |
| ActiveSpace.Rule.constructor | Java-0.2/src/ActiveSpace/Rule.java:41-54 | the rule holds its arguments; a local rule is appended to its region's rules and a global rule is registered nowhere |
| ActiveSpace.Rule.CheckTriggered | Java-0.2/src/ActiveSpace/Rule.java:95-109 | the rule fires iff the event matches and, when initState >= 0, the region is in that state; a firing runs the action once and moves the region to nextState when that is not negative; otherwise nothing happens |
| ActiveSpace.Rule.ToXML | Java-0.2/src/ActiveSpace/Rule.java:71-85 | the text is the rendering of the rule element, one level deep, with its action elements inside |
| ActiveSpace.RuleText | Java-0.2/src/ActiveSpace/Rule.java:71-85 | the hand-concatenated rule text is that rendering |
| ActiveSpace.RuleAttrNames | Java-0.2/src/ActiveSpace/Rule.java:72-80 | name, region and event come first; a state attribute is written iff initState >= 0, a next attribute iff nextState >= 0 |
| ActiveSpace.RunRulesFired | Java-0.2/src/ActiveSpace/Region.java:184-193 | a pass reports a firing exactly when some rule fires in the state it is offered the event in |
| ActiveSpace.RunRulesQuiet | Java-0.2/src/ActiveSpace/Region.java:184-193 | when no rule is for the event, the pass changes no state and makes no call |
| ActiveSpace.RunRulesState | Java-0.2/src/ActiveSpace/Region.java:184-193 | after a pass the region is in its starting state or in the non-negative next state of one of its rules |
| ActiveSpace.Cascade | Java-0.2/src/ActiveSpace/Region.java:184-193 | rules 0→1 then 1→2 both fire on one event and leave state 2; in the opposite order only the first fires |
| ActiveSpace.Region.constructor | Java-0.2/src/ActiveSpace/Region.java:29-35 | a new region has the given name, centre and radius, state 0 and no rules |
| ActiveSpace.Region.SetState | Java-0.2/src/ActiveSpace/Region.java:112-114 | only the state changes |
| ActiveSpace.Region.AddRule | Java-0.2/src/ActiveSpace/Region.java:128-130 | the rule is appended and earlier rules keep their order |
| ActiveSpace.Region.ProcessPosition | Java-0.2/src/ActiveSpace/Region.java:142-194 | the result, the calls and the new state are those of detecting the event against the actor's last position and offering it to every rule in order; the actor is not changed |
| ActiveSpace.QuietReport | Java-0.2/src/ActiveSpace/Region.java:142-182 | a report that is neither an entry nor an exit fires nothing and keeps the state |
| ActiveSpace.StartupRulesIgnored | Java-0.2/src/ActiveSpace/Region.java:184-193 | rules waiting for STARTUP never fire inside a region |
| ActiveSpace.Region.ToXML | Java-0.2/src/ActiveSpace/Region.java:48-57 | the text is the rendering of a region element with name and radius attributes and its centre as child |
| ActiveSpace.RegionText | Java-0.2/src/ActiveSpace/Region.java:48-57 | the hand-concatenated region text is that rendering |
| ActiveSpace.RuleNodesOf | Java-0.2/src/ActiveSpace/Region.java:62-71 | one element per rule, in registration order |
| ActiveSpace.Region.RulesToXML | Java-0.2/src/ActiveSpace/Region.java:62-71 | the loop writes the rendering of the rule elements, in registration order |
| Spaces.ResolveResource | Java-0.2/src/ActiveSpace/Space.java:362-365 | a resource is put under the prefix unless no prefix is set or the value is "cancel" |
| Spaces.UntaggedIsUnset | Java-0.2/src/ActiveSpace/Space.java:356-390 | with no child element of a channel's tag, the channel's binding stays unset |
| Spaces.LastTaggedDecides | Java-0.2/src/ActiveSpace/Space.java:356-390 | the last child element with a channel's tag decides its binding, unset when it has no file attribute |
| Spaces.BuildAction | Java-0.2/src/ActiveSpace/Space.java:356-390 | the action is fresh and each binding is the one its last child element gives |
| Spaces.DefaultState | Java-0.2/src/ActiveSpace/Space.java:396-399 | a missing state or next attribute means -1 |
| Spaces.Route | Java-0.2/src/ActiveSpace/Space.java:400-410 | a rule goes to its named region iff the region is not "NONE"; with "NONE" it goes to the entry, exit or startup slot iff its event is ENTRY, EXIT or STARTUP, and is dropped iff the event is not recognised |
| Spaces.Space.constructor | Java-0.2/src/ActiveSpace/Space.java:46-61 | a new space has no name, prefix, regions or global rules, and has not started |
| Spaces.Space.SetName | Java-0.2/src/ActiveSpace/Space.java:78-80 | only the name changes |
| Spaces.Space.SetPrefix | Java-0.2/src/ActiveSpace/Space.java:86-88 | only the prefix changes |
| Spaces.Space.AddRegion | Java-0.2/src/ActiveSpace/Space.java:104-106 | the region is appended and the space stays consistent |
| Spaces.Space.GetRegionAt | Java-0.2/src/ActiveSpace/Space.java:123-134 | the num-th region when 0 <= num < count, a failure otherwise |
| Spaces.Space.GetRegionNamed | Java-0.2/src/ActiveSpace/Space.java:142-151 | the first region with that name; a failure iff no region has it |
| Spaces.Space.EnsureStarted | Java-0.2/src/ActiveSpace/Space.java:189-193 | the startup rule runs iff the space has not started and there is one; afterwards the space has started |
| Spaces.Space.AddActor | Java-0.2/src/ActiveSpace/Space.java:158-166 | the calls are the startup rule's, when still due, followed by the actor-entry rule's, if any |
| Spaces.Space.DropActor | Java-0.2/src/ActiveSpace/Space.java:173-176 | the calls are the actor-exit rule's, if any, and nothing changes |
| Spaces.Space.ProcessPosition | Java-0.2/src/ActiveSpace/Space.java:186-208 | startup if still due; with no actor or no position nothing else happens; otherwise each region ends in the state of its own outcome, the calls are the regions' calls in order, and the result says whether any region fired |
| Spaces.Outcomes | Java-0.2/src/ActiveSpace/Space.java:200-205 | one pass per region, each the outcome of that region alone |
| Spaces.OfferToRegions | Java-0.2/src/ActiveSpace/Space.java:200-207 | the loop leaves each region in its own outcome's state and returns whether any fired and all calls in order |
| Spaces.OfferToRegion | Java-0.2/src/ActiveSpace/Space.java:203-204 | one region processes the report as its outcome says, and the regions after it are unaffected |
| Spaces.Space.LoadRule | Java-0.2/src/ActiveSpace/Space.java:348-411 | an unknown region fails the load and changes nothing; otherwise the rule, with its name, event, states and action, is appended to the first region of that name or put into the slot of its event, or dropped, and no other rule list or slot changes |
| Spaces.Space.AttachRule | Java-0.2/src/ActiveSpace/Space.java:401-403 | a new local rule is appended to that region only |
| Spaces.Space.ReadRules | Java-0.2/src/ActiveSpace/Space.java:342-421 | the load fails iff some record names an unknown region, and then the records before the first such one are loaded and none after it; each region's rule list is its old list followed by the local rules made for it, in record order; each rule made carries its record's name, event, states and an action whose files are prefixed by the media location; each global slot holds the last rule routed to it by a loaded record, or its old rule |
| Spaces.LastMadeIsLast | Java-0.2/src/ActiveSpace/Space.java:403-410 | a global slot after a run of records holds the rule of the last loaded record routed to it |
| Spaces.LastMadeUntouched | Java-0.2/src/ActiveSpace/Space.java:403-410 | a global slot to which no loaded record is routed keeps the rule it held before the load |
| Spaces.Space.RegionsToXML | Java-0.2/src/ActiveSpace/Space.java:429-444 | the text is the regions element, with a name attribute only for a non-empty name, holding each region's element in order |
| Spaces.Space.RulesToXML | Java-0.2/src/ActiveSpace/Space.java:451-472 | the text is the rules element holding the startup, actor-entry and actor-exit rules (each when set) followed by each region's rules in order; this is the corrected version (see Findings) |
| Spaces.RegionRulesText | Java-0.2/src/ActiveSpace/Space.java:464-468 | the loop writes every region's rule elements, region by region |
| Spaces.ExitRuleNotWritten | Java-0.2/src/ActiveSpace/Space.java:451-472 | as coded, the text rulesToXML assembles is the rules document holding the startup rule and the actor-entry rule twice: a configured actor-exit rule is missing and the actor-entry rule appears twice |
| Spaces.IntendedGlobalRulesComplete | Java-0.2/src/ActiveSpace/Space.java:456-461 | the corrected list holds exactly the configured global rules, each once when they are distinct |
| Spaces.Towards | Java-0.2/src/ActiveSpace/Space.java:599-606 | one test-walk step moves at most step toward the goal, never past it, and lands on the goal when within step |
| Kinected.FirstIsFirst | Java-0.2/src/KinectedSpace/KinectedSpace.java:122-129 | the search finds the lowest slot holding the name, and reports the table size exactly when none does |
| Kinected.OldestIsOldest | Java-0.2/src/KinectedSpace/KinectedSpace.java:139-143 | the slot chosen for eviction has the smallest generation, the lowest such slot on a tie |
| Kinected.EmptyTable | Java-0.2/src/KinectedSpace/KinectedSpace.java:103-108 | the initial table is well formed, with every slot empty at generation 0 |
| Kinected.AdmitPlaces | Java-0.2/src/KinectedSpace/KinectedSpace.java:117-157 | finding an actor keeps the table well formed, leaves the name in the returned slot and changes no other slot |
| Kinected.AdmitResident | Java-0.2/src/KinectedSpace/KinectedSpace.java:122-128 | a resident actor keeps its slot, nothing is evicted, the counter advances and its slot becomes strictly the most recent |
| Kinected.AdmitIntoEmpty | Java-0.2/src/KinectedSpace/KinectedSpace.java:149-154 | a new actor takes the lowest empty slot at generation 0, evicting nobody and leaving the counter |
| Kinected.AdmitEvicts | Java-0.2/src/KinectedSpace/KinectedSpace.java:138-154 | a new actor at a full table replaces exactly the least recently used slot, and the table stays full |
| Kinected.AdmitTwice | Java-0.2/src/KinectedSpace/KinectedSpace.java:117-128 | finding the same actor twice in a row touches the same slot |
| Kinected.DismissRemoves | Java-0.2/src/KinectedSpace/KinectedSpace.java:174-185 | dropping removes the name, keeps every other slot and the generations, and changes nothing for an absent name |
| Kinected.KinectedSpace.constructor | Java-0.2/src/KinectedSpace/KinectedSpace.java:71-109 | a new room has its own empty space, all slots empty at generation 0, heights ignored, and the image blanked |
| Kinected.KinectedSpace.FindActor | Java-0.2/src/KinectedSpace/KinectedSpace.java:117-157 | the arrays move exactly as Admit says; the returned actor carries the name and sits in the slot Admit returns; a resident actor is returned itself, and a new one is fresh with no position |
| Kinected.KinectedSpace.Scan | Java-0.2/src/KinectedSpace/KinectedSpace.java:121-129 | the first loop finds the lowest slot holding the name; when there is none, the free count is zero iff every slot is taken |
| Kinected.KinectedSpace.Bump | Java-0.2/src/KinectedSpace/KinectedSpace.java:125-127 | a resident actor's slot is stamped with the next generation, as Admit says |
| Kinected.KinectedSpace.EvictOldest | Java-0.2/src/KinectedSpace/KinectedSpace.java:138-146 | the least recently used slot is emptied and its generation reset; nothing else changes |
| Kinected.KinectedSpace.Allocate | Java-0.2/src/KinectedSpace/KinectedSpace.java:149-154 | a fresh actor without a position goes into the lowest empty slot at generation 0, as Admit says |
| Kinected.KinectedSpace.Touch | Java-0.2/src/KinectedSpace/KinectedSpace.java:165 | finding an actor moves the table as Admit says, returns the actor with its last known position, and leaves the space alone |
| Kinected.KinectedSpace.AddActor | Java-0.2/src/KinectedSpace/KinectedSpace.java:164-167 | the table moves as Admit says; the startup rule, when due, then the actor-entry rule are played |
| Kinected.KinectedSpace.Greet | Java-0.2/src/KinectedSpace/KinectedSpace.java:166 | the space's calls for a new actor are appended to what was played |
| Kinected.KinectedSpace.DropActor | Java-0.2/src/KinectedSpace/KinectedSpace.java:174-185 | the table moves as Dismiss says; the actor-exit rule is played iff the actor was resident |
| Kinected.KinectedSpace.Locate | Java-0.2/src/KinectedSpace/KinectedSpace.java:178-184 | the lowest slot holding the name, or the table size |
| Kinected.KinectedSpace.Update | Java-0.2/src/KinectedSpace/KinectedSpace.java:280-303 | a missing position changes nothing; otherwise the height is zeroed, the table moves as Admit says, the regions process the report against the actor's previous position, their calls are played, and the report becomes the actor's position; every other actor's position is unchanged, and with a missing position every actor's is |
| Kinected.KinectedSpace.Arrive | Java-0.2/src/KinectedSpace/KinectedSpace.java:290-302 | the actor is found or admitted, the space processes the report, and then the report is recorded; no other actor's position changes |
| Kinected.KinectedSpace.Report | Java-0.2/src/KinectedSpace/KinectedSpace.java:301-302 | the space processes the report against the actor's old position before the position is recorded |
| Kinected.KinectedSpace.Record | Java-0.2/src/KinectedSpace/KinectedSpace.java:302 | the report becomes the actor's last position and the calls are played |
| Kinected.KinectedSpace.Start | Java-0.2/src/KinectedSpace/KinectedSpace.java:270-272 | the startup rule is played when due, and no region changes |

## Left out

- Reading regions and rules files: XML parsing, URIs and their exceptions are not modelled. `Spaces.Space.ReadRules` starts from parsed rule records, with state and next attributes already converted to integers. A failing `Integer.parseInt` and missing required attributes are not modelled. readRegions is not part of this model; regions are added with `AddRegion`.
- Floating point: coordinates and radii are reals. The square root is replaced by comparisons of squared distances, which are proved equivalent. Float rounding is not modelled, and Java's float-to-string formatting is the parameter `fmt` of the XML emitters.
- Media playing (images, sounds, fonts, windows): the room records the calls it would make in `played`. The display, audio and file handling in `KinectedSpace.java` are not modelled.
- The test walk (`Space.test`, `KinectedSpace.test`) is not modelled, apart from its step function `Spaces.Towards`.
- The sensor, the GUIs and the application entry points are not part of this model.
- Diagnostics are not modelled: debug levels and prints, the `toString` of Rule, Coord and Region, and `listRules`. `Space.media` is implicit: the room itself receives the calls.
- `Kinected.KinectedSpace.Update` zeroes the height of a copy of the report. The Java code also writes `y = 0` into the caller's Coord object, and that aliasing is not modelled.
- `Kinected.KinectedSpace.FindActor`: `generation` is an unbounded integer, so 32-bit wrap-around of the counter is not modelled.
- The unreachable `return null` at the end of findActor, and update's check for a null actor, have no counterpart. The model proves that findActor always returns an actor.
- `Spaces.Space.RulesToXML` writes each region's rules as the rendering that `ActiveSpace.Region.RulesToXML` is proved to return. It does not call that method inside its loop.
- `Spaces.Space.DropActor`, `Spaces.Space.AddActor` and `Spaces.Space.ProcessPosition` take no media argument: the calls are returned instead.
- `Hysteresis.Detect`: the two inner distances are computed with exact real arithmetic rather than 32-bit floats. A report that lies within float rounding of a threshold may therefore be classified differently.

## Findings

| source | as written | input that shows it | evidently intended | confidence | as-written member | corrected member |
|---|---|---|---|---|---|---|
| Java-0.2/src/ActiveSpace/Space.java:458-461 | the second test of rulesToXML checks and writes actorEntry again | a space with an actor-entry rule E and an actor-exit rule X (both region "NONE"): the rules document holds E twice and no X | write actorExit when it is set | not executed | Spaces.ExitRuleNotWritten | Spaces.IntendedGlobalRulesComplete |
