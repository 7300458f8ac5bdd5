/**
 * The sensor-facing side of a room: a fixed table of actor slots in front of a
 * Space. Tracked people arrive as numbers; each number is given an Actor named
 * "Actor-<n>" in one of MaxActors slots. Each slot carries the generation of
 * its last use, so that when the table is full the least recently used
 * actor can be evicted (there is no "person left" signal from the sensor).
 *
 * The slot table is first stated on values (Table, Admit, Dismiss) and its
 * properties proved there; the KinectedSpace class keeps the same table in
 * two arrays and a counter, and each of its methods is proved to move the
 * table exactly as Admit or Dismiss says.
 *
 * The object also plays the media: the calls the space makes are appended to
 * its trace of played calls.
 */
module Kinected {
  import opened Wrappers
  import opened Text
  import opened Coords
  import opened Media
  import opened ActiveSpace
  import opened Spaces

  /** The number of concurrent actors tracked. */
  const MaxActors: nat := 10

  /** The name given to the actor the sensor numbers n. */
  function ActorName(n: int): string
  {
    "Actor-" + IntToString(n)
  }

  /** Distinct actor numbers give distinct names. */
  lemma ActorNameInjective(m: int, n: int)
    ensures ActorName(m) == ActorName(n) <==> m == n
  {
    if ActorName(m) == ActorName(n) {
      assert ("Actor-" + IntToString(m))[6..] == IntToString(m);
      assert ("Actor-" + IntToString(n))[6..] == IntToString(n);
      IntToStringInjective(m, n);
    }
  }

  // ---------------------------------------------------------------------------
  // The slot table as a value.

  /** The names held in the slots (None for an empty slot), their generations and the move counter. */
  datatype Table = Table(names: seq<Option<string>>, gens: seq<int>, generation: int)

  /** Slot sizes agree, no name is held twice and no slot is newer than the counter. */
  predicate WellFormed(t: Table)
  {
    |t.names| == |t.gens| == MaxActors
    && (forall i, j :: 0 <= i < j < MaxActors && t.names[i].Some? ==> t.names[i] != t.names[j])
    && (forall i :: 0 <= i < MaxActors ==> 0 <= t.gens[i] <= t.generation)
  }

  /** The first slot holding x, or |xs| when there is none. */
  function First(xs: seq<Option<string>>, x: Option<string>): nat
  {
    if xs == [] then 0 else if xs[0] == x then 0 else 1 + First(xs[1..], x)
  }

  /** First finds the lowest slot holding x, and reports |xs| exactly when none does. */
  lemma {:induction false} FirstIsFirst(xs: seq<Option<string>>, x: Option<string>)
    ensures First(xs, x) <= |xs|
    ensures First(xs, x) < |xs| ==> xs[First(xs, x)] == x
    ensures forall j :: 0 <= j < First(xs, x) && j < |xs| ==> xs[j] != x
  {
    if xs != [] && xs[0] != x {
      FirstIsFirst(xs[1..], x);
      forall j | 0 <= j < First(xs, x) && j < |xs|
        ensures xs[j] != x
      {
        if j > 0 {
          assert xs[j] == xs[1..][j - 1];
        }
      }
    }
  }

  /** A slot that holds x and has no earlier slot holding x is the one First finds. */
  lemma FirstAt(xs: seq<Option<string>>, x: Option<string>, k: int)
    requires 0 <= k < |xs| && xs[k] == x
    requires forall j :: 0 <= j < k ==> xs[j] != x
    ensures First(xs, x) == k
  {
    FirstIsFirst(xs, x);
  }

  /** With no slot holding x, First says so. */
  lemma FirstAbsent(xs: seq<Option<string>>, x: Option<string>)
    requires forall j :: 0 <= j < |xs| ==> xs[j] != x
    ensures First(xs, x) == |xs|
  {
    FirstIsFirst(xs, x);
  }

  /**
   * The slot evicted from a full table: scanning from slot 0, a later slot
   * replaces the candidate only when its generation is strictly smaller.
   */
  function Oldest(gens: seq<int>): (k: nat)
    requires |gens| > 0
    ensures k < |gens|
  {
    if |gens| == 1 then 0
    else
      var o := Oldest(gens[..|gens| - 1]);
      if gens[|gens| - 1] < gens[o] then |gens| - 1 else o
  }

  /** Slot k has the smallest generation and is the lowest slot that has it. */
  predicate IsOldest(gens: seq<int>, k: int)
  {
    0 <= k < |gens|
    && (forall j :: 0 <= j < |gens| ==> gens[k] <= gens[j])
    && (forall j :: 0 <= j < k ==> gens[k] < gens[j])
  }

  /** Oldest picks the least recently used slot, ties going to the lowest index. */
  lemma {:induction false} OldestIsOldest(gens: seq<int>)
    requires |gens| > 0
    ensures IsOldest(gens, Oldest(gens))
  {
    if |gens| > 1 {
      var n := |gens| - 1;
      var init := gens[..n];
      OldestIsOldest(init);
      assert forall j :: 0 <= j < n ==> init[j] == gens[j];
    }
  }

  /** The slot a new name goes to: the first empty one, or the oldest when none is empty. */
  function FreeSlot(t: Table): (s: nat)
    requires |t.names| == |t.gens| > 0
    ensures s < |t.names|
  {
    if First(t.names, None) < |t.names| then First(t.names, None) else Oldest(t.gens)
  }

  /**
   * KinectedSpace.findActor on the table: a resident name is touched (its
   * slot gets the next generation); a new name takes the free slot with
   * generation 0 and the counter stays. Returns the new table and the slot.
   */
  function Admit(t: Table, name: string): (r: (Table, nat))
    requires |t.names| == |t.gens| > 0
    ensures |r.0.names| == |t.names| && |r.0.gens| == |t.gens|
  {
    var k := First(t.names, Some(name));
    if k < |t.names| then
      (Table(t.names, t.gens[k := t.generation + 1], t.generation + 1), k)
    else
      var s := FreeSlot(t);
      (Table(t.names[s := Some(name)], t.gens[s := 0], t.generation), s)
  }

  /** KinectedSpace.dropActor on the table: the name's slot is emptied, its generation left as it was. */
  function Dismiss(t: Table, name: string): Table
  {
    var k := First(t.names, Some(name));
    if k < |t.names| then Table(t.names[k := None], t.gens, t.generation) else t
  }

  /** The empty table of a new KinectedSpace. */
  function EmptyTable(): (t: Table)
    ensures WellFormed(t)
    ensures forall i :: 0 <= i < MaxActors ==> t.names[i].None? && t.gens[i] == 0
  {
    Table(seq(MaxActors, _ => None), seq(MaxActors, _ => 0), 0)
  }

  /**
   * Admitting a name keeps the table well formed and leaves the name in the
   * returned slot; only that slot changes.
   */
  lemma AdmitPlaces(t: Table, name: string)
    requires WellFormed(t)
    ensures var (t', k) := Admit(t, name);
      WellFormed(t') && k < MaxActors && t'.names[k] == Some(name)
      && (forall j :: 0 <= j < MaxActors && j != k ==> t'.names[j] == t.names[j] && t'.gens[j] == t.gens[j])
  {
    FirstIsFirst(t.names, Some(name));
    FirstIsFirst(t.names, None);
    if First(t.names, None) == |t.names| {
      OldestIsOldest(t.gens);
    }
  }

  /**
   * A resident name keeps its slot and nothing is evicted; its slot becomes
   * strictly the most recently used.
   */
  lemma AdmitResident(t: Table, name: string, k: int)
    requires WellFormed(t)
    requires 0 <= k < MaxActors && t.names[k] == Some(name)
    ensures var (t', s) := Admit(t, name);
      s == k && t'.names == t.names && t'.generation == t.generation + 1
      && (forall j :: 0 <= j < MaxActors && j != k ==> t'.gens[j] < t'.gens[k])
  {
    assert forall j :: 0 <= j < k ==> t.names[j] != Some(name);
    FirstAt(t.names, Some(name), k);
  }

  /** A new name goes to the lowest empty slot when there is one, evicting nobody. */
  lemma AdmitIntoEmpty(t: Table, name: string)
    requires WellFormed(t)
    requires forall j :: 0 <= j < MaxActors ==> t.names[j] != Some(name)
    requires exists j :: 0 <= j < MaxActors && t.names[j].None?
    ensures var (t', s) := Admit(t, name);
      t.names[s].None? && (forall j :: 0 <= j < s ==> t.names[j].Some?)
      && t'.gens[s] == 0 && t'.generation == t.generation
      && (forall j :: 0 <= j < MaxActors && t.names[j].Some? ==> t'.names[j] == t.names[j])
  {
    FirstAbsent(t.names, Some(name));
    FirstIsFirst(t.names, None);
  }

  /**
   * A new name arriving at a full table evicts exactly the least recently
   * used slot (the lowest such slot on a tie) and takes it over.
   */
  lemma AdmitEvicts(t: Table, name: string)
    requires WellFormed(t)
    requires forall j :: 0 <= j < MaxActors ==> t.names[j] != Some(name)
    requires forall j :: 0 <= j < MaxActors ==> t.names[j].Some?
    ensures var (t', s) := Admit(t, name);
      IsOldest(t.gens, s) && t'.names[s] == Some(name) && t'.gens[s] == 0
      && (forall j :: 0 <= j < MaxActors ==> t'.names[j].Some?)
      && (forall j :: 0 <= j < MaxActors && j != s ==> t'.names[j] == t.names[j])
  {
    FirstAbsent(t.names, Some(name));
    FirstAbsent(t.names, None);
    OldestIsOldest(t.gens);
  }

  /** Admitting the same name twice in a row touches the same slot. */
  lemma AdmitTwice(t: Table, name: string)
    requires WellFormed(t)
    ensures var (t1, k1) := Admit(t, name);
      var (t2, k2) := Admit(t1, name);
      k2 == k1 && t2.names == t1.names && t2.generation == t1.generation + 1
  {
    AdmitPlaces(t, name);
    var (t1, k1) := Admit(t, name);
    AdmitResident(t1, name, k1);
  }

  /** Dismissing removes the name and keeps every other slot; dismissing an absent name changes nothing. */
  lemma DismissRemoves(t: Table, name: string)
    requires WellFormed(t)
    ensures WellFormed(Dismiss(t, name))
    ensures forall j :: 0 <= j < MaxActors ==> Dismiss(t, name).names[j] != Some(name)
    ensures forall j :: 0 <= j < MaxActors && t.names[j] != Some(name) ==> Dismiss(t, name).names[j] == t.names[j]
    ensures Dismiss(t, name).gens == t.gens && Dismiss(t, name).generation == t.generation
    ensures (forall j :: 0 <= j < MaxActors ==> t.names[j] != Some(name)) ==> Dismiss(t, name) == t
  {
    FirstIsFirst(t.names, Some(name));
  }

  // ---------------------------------------------------------------------------

  /** The names in an array of actor slots. */
  function Names(slots: seq<Actor?>): seq<Option<string>>
  {
    seq(|slots|, i => if 0 <= i < |slots| && slots[i] != null then Some(slots[i].name) else None)
  }

  /** Storing into one slot stores its name. */
  lemma NamesUpdate(slots: seq<Actor?>, k: int, a: Actor?)
    requires 0 <= k < |slots|
    ensures Names(slots[k := a]) == Names(slots)[k := if a == null then None else Some(a.name)]
  {
  }

  /** A room watched by one sensor: the space, the actor slots and the media played so far. */
  class KinectedSpace {
    const space: Space
    const actors: array<Actor?>
    const updates: array<int>
    var generation: int
    /** The room is treated as a floor plan: reported heights are discarded. */
    const ignoreY: bool
    var played: seq<MediaCall>

    /** The slot table these fields hold. */
    ghost function Slots(): Table
      reads this`generation, actors, updates
    {
      Table(Names(actors[..]), updates[..], generation)
    }

    /** The slot arrays hold a well-formed table. */
    ghost predicate TableValid()
      reads this`generation, actors, updates
    {
      WellFormed(Slots())
    }

    ghost predicate Valid()
      reads this`generation, actors, updates
      reads space`regions, space`onStartup, space`actorEntry, space`actorExit, (set r | r in space.regions)`rules
    {
      TableValid() && space.Valid()
    }

    /** A new room with its own empty space: all slots empty at generation 0, and the display blanked. */
    constructor ()
      ensures Valid() && fresh(space) && fresh(actors) && fresh(updates)
      ensures Slots() == EmptyTable()
      ensures ignoreY && played == [BlankImage]
      ensures space.regions == [] && !space.started
    {
      space := new Space();
      ignoreY := true;
      played := [BlankImage];
      actors := new Actor?[MaxActors](_ => null);
      updates := new int[MaxActors](_ => 0);
      generation := 0;
      new;
      assert Names(actors[..]) == EmptyTable().names;
    }

    /**
     * KinectedSpace.findActor: the actor for sensor number n, moving the
     * table as Admit does. A resident actor is returned as it is; a new one
     * has no position yet.
     */
    method FindActor(n: int) returns (a: Actor)
      requires TableValid()
      modifies this`generation, actors, updates
      ensures TableValid()
      ensures (Slots(), IndexOf(a)) == Admit(old(Slots()), ActorName(n))
      ensures a.name == ActorName(n) && IndexOf(a) < MaxActors && actors[IndexOf(a)] == a
      ensures First(old(Names(actors[..])), Some(ActorName(n))) < MaxActors ==>
        a == old(actors[First(Names(actors[..]), Some(ActorName(n)))])
      ensures First(old(Names(actors[..])), Some(ActorName(n))) == MaxActors ==> fresh(a) && a.lastPosition.None?
    {
      var name := ActorName(n);
      ghost var t := Slots();
      FirstIsFirst(t.names, Some(name));
      FirstIsFirst(t.names, None);
      AdmitPlaces(t, name);
      var i, free := Scan(name);
      if i < MaxActors {
        Bump(i, name, t);
        a := actors[i];
        return;
      }
      if free == 0 {
        FirstAbsent(t.names, None);
        ghost var before := actors[..];
        var oldest := EvictOldest();
        NamesUpdate(before, oldest, null);
      }
      a := Allocate(name, t);
    }

    /** A returning actor: the counter advances and the actor's slot is stamped with it. */
    method Bump(k: nat, name: string, ghost t: Table)
      requires TableValid() && Slots() == t
      requires k == First(t.names, Some(name)) < MaxActors
      modifies this`generation, updates
      ensures Slots() == Admit(t, name).0
      ensures TableValid()
    {
      AdmitPlaces(t, name);
      generation := generation + 1;
      updates[k] := generation;
    }

    /**
     * The first loop of findActor: the lowest slot holding the name (or
     * MaxActors), counting on the way the empty slots passed.
     */
    method Scan(name: string) returns (found: nat, free: nat)
      requires TableValid()
      ensures found == First(Slots().names, Some(name))
      ensures found == MaxActors ==> (free == 0 <==> forall j :: 0 <= j < MaxActors ==> Slots().names[j].Some?)
    {
      ghost var names := Slots().names;
      free := 0;
      found := 0;
      while found < MaxActors
        invariant 0 <= found <= MaxActors
        invariant free == 0 <==> forall j :: 0 <= j < found ==> names[j].Some?
        invariant forall j :: 0 <= j < found ==> names[j] != Some(name)
      {
        assert names[found] == if actors[found] == null then None else Some(actors[found].name);
        if actors[found] == null {
          free := free + 1;
        } else if actors[found].name == name {
          FirstAt(names, Some(name), found);
          return;
        }
        found := found + 1;
      }
      FirstAbsent(names, Some(name));
    }

    /** findActor as the rest of the room sees it: the space is left as it was. */
    method Touch(n: int) returns (a: Actor)
      requires Valid()
      modifies this`generation, actors, updates
      ensures Valid()
      ensures Slots() == Admit(old(Slots()), ActorName(n)).0
      ensures a.name == ActorName(n) && IndexOf(a) < MaxActors && actors[IndexOf(a)] == a
      ensures a.lastPosition == old(LastSeen(ActorName(n)))
      ensures fresh(a) || a in old(actors[..])
      ensures StartupCalls(space.started, space.onStartup) == old(StartupCalls(space.started, space.onStartup))
    {
      ghost var t := Slots();
      FirstIsFirst(t.names, Some(ActorName(n)));
      a := FindActor(n);
      assert space.Valid();
    }

    /** Where the actor named name was last seen: None when no slot holds it or it has no position yet. */
    ghost function LastSeen(name: string): Option<Coord>
      reads actors, set a: Actor | a in actors[..]
    {
      var k := First(Names(actors[..]), Some(name));
      if k < actors.Length && actors[k] != null then actors[k].lastPosition else None
    }

    /**
     * KinectedSpace.addActor: the actor is found or admitted, then the space
     * runs its startup rule if still due and its actor-entry rule.
     */
    method AddActor(n: int)
      requires Valid()
      modifies this`generation, actors, updates, this`played, space`started
      ensures Valid() && space.started
      ensures Slots() == Admit(old(Slots()), ActorName(n)).0
      ensures played == old(played) + old(StartupCalls(space.started, space.onStartup)) + GlobalCalls(space.actorEntry)
    {
      var a := Touch(n);
      Greet(a);
    }

    /** The second half of addActor: the space greets a resident actor and its calls are played. */
    method Greet(a: Actor)
      requires space.Valid()
      modifies this`played, space`started
      ensures space.Valid() && space.started
      ensures played == old(played) + old(StartupCalls(space.started, space.onStartup)) + GlobalCalls(space.actorEntry)
    {
      var calls := space.AddActor(a);
      played := played + calls;
    }

    /**
     * KinectedSpace.dropActor: a resident actor's departure runs the space's
     * actor-exit rule and empties its slot as Dismiss does; an unknown number
     * changes nothing.
     */
    method DropActor(n: int)
      requires Valid()
      modifies actors, this`played
      ensures Valid()
      ensures Slots() == Dismiss(old(Slots()), ActorName(n))
      ensures First(old(Slots()).names, Some(ActorName(n))) < MaxActors ==> played == old(played) + GlobalCalls(space.actorExit)
      ensures First(old(Slots()).names, Some(ActorName(n))) == MaxActors ==> played == old(played)
    {
      var name := ActorName(n);
      ghost var t := Slots();
      DismissRemoves(t, name);
      var k := Locate(name);
      if k < MaxActors {
        var calls := space.DropActor(actors[k]);
        played := played + calls;
        NamesUpdate(actors[..], k, null);
        actors[k] := null;
      }
    }

    /** The scan of dropActor: the lowest slot holding an actor with that name, or MaxActors. */
    method Locate(name: string) returns (k: nat)
      requires TableValid()
      ensures k == First(Slots().names, Some(name)) && k <= MaxActors
      ensures k < MaxActors ==> actors[k] != null
    {
      FirstIsFirst(Slots().names, Some(name));
      k := 0;
      while k < MaxActors
        invariant 0 <= k <= MaxActors
        invariant forall j :: 0 <= j < k ==> Slots().names[j] != Some(name)
      {
        if actors[k] != null && actors[k].name == name {
          FirstAt(Slots().names, Some(name), k);
          return;
        }
        k := k + 1;
      }
      FirstAbsent(Slots().names, Some(name));
    }

    /**
     * KinectedSpace.update: a missing position is ignored. Otherwise the
     * height is discarded (the room is a floor plan), the actor is found or
     * admitted, the space processes the report against the actor's previous
     * position, and only then is the report recorded as its position.
     */
    method Update(n: int, pos: Option<Coord>)
      requires Valid()
      modifies this`generation, actors, updates, this`played, (set a: Actor | a in actors[..])`lastPosition
      modifies space`started, (set r | r in space.regions)`state
      ensures Valid()
      ensures pos.None? ==>
        Slots() == old(Slots()) && played == old(played) && space.started == old(space.started)
        && forall j :: 0 <= j < |space.regions| ==> space.regions[j].state == old(space.regions[j].state)
      ensures pos.Some? ==>
        var p := if ignoreY then pos.value.(y := 0.0) else pos.value;
        var outs := old(Outcomes(space.regions, LastSeen(ActorName(n)), p));
        Slots() == Admit(old(Slots()), ActorName(n)).0
        && LastSeen(ActorName(n)) == Some(p)
        && space.started
        && played == old(played) + old(StartupCalls(space.started, space.onStartup)) + AllCalls(outs)
        && forall j :: 0 <= j < |space.regions| ==> space.regions[j].state == outs[j].state
      ensures forall b: Actor :: b in old(actors[..]) && (pos.None? || b.name != ActorName(n))
                                 ==> b.lastPosition == old(b.lastPosition)
    {
      if pos.None? {
        return;
      }
      var p := if ignoreY then pos.value.(y := 0.0) else pos.value;
      Arrive(n, p);
    }

    /** update for a present report p: the actor is found or admitted, then the report is processed and recorded. */
    method Arrive(n: int, p: Coord)
      requires Valid()
      modifies this`generation, actors, updates, this`played, (set a: Actor | a in actors[..])`lastPosition
      modifies space`started, (set r | r in space.regions)`state
      ensures Valid()
      ensures Slots() == Admit(old(Slots()), ActorName(n)).0 && LastSeen(ActorName(n)) == Some(p) && space.started
      ensures var outs := old(Outcomes(space.regions, LastSeen(ActorName(n)), p));
        played == old(played) + old(StartupCalls(space.started, space.onStartup)) + AllCalls(outs)
        && forall j :: 0 <= j < |space.regions| ==> space.regions[j].state == outs[j].state
      ensures forall b: Actor :: b in old(actors[..]) && b.name != ActorName(n) ==> b.lastPosition == old(b.lastPosition)
    {
      ghost var name := ActorName(n);
      ghost var t := Slots();
      ghost var outs := Outcomes(space.regions, LastSeen(name), p);
      FirstIsFirst(t.names, Some(name));
      var a := Touch(n);
      assert a.lastPosition == old(LastSeen(name));
      assert Outcomes(space.regions, a.lastPosition, p) == outs;
      Report(a, p);
    }

    /**
     * The second half of update: the space processes the report for a, a
     * resident actor, and then the report becomes a's last position.
     */
    method Report(a: Actor, p: Coord)
      requires space.Valid() && actors.Length == MaxActors && IndexOf(a) < MaxActors && actors[IndexOf(a)] == a
      modifies a`lastPosition, this`played, space`started, (set r | r in space.regions)`state
      ensures space.Valid() && space.started
      ensures LastSeen(a.name) == Some(p)
      ensures var outs := old(Outcomes(space.regions, a.lastPosition, p));
        played == old(played) + old(StartupCalls(space.started, space.onStartup)) + AllCalls(outs)
        && forall j :: 0 <= j < |space.regions| ==> space.regions[j].state == outs[j].state
    {
      var changes, calls := space.ProcessPosition(a, Some(p));
      Record(a, p, calls);
    }

    /** The report becomes a's last position and the space's calls are played. */
    method Record(a: Actor, p: Coord, calls: seq<MediaCall>)
      requires actors.Length == MaxActors && IndexOf(a) < MaxActors && actors[IndexOf(a)] == a
      modifies a`lastPosition, this`played
      ensures LastSeen(a.name) == Some(p) && played == old(played) + calls
    {
      a.SetLastPosition(Some(p));
      played := played + calls;
    }

    /** KinectedSpace.start: the space runs its startup rule if still due, before any report. */
    method Start()
      requires Valid()
      modifies space`started, (set r | r in space.regions)`state, this`played
      ensures Valid() && space.started
      ensures played == old(played) + old(StartupCalls(space.started, space.onStartup))
      ensures forall j :: 0 <= j < |space.regions| ==> space.regions[j].state == old(space.regions[j].state)
    {
      var changes, calls := space.ProcessPosition(null, None);
      played := played + calls;
    }

    /** The slot holding actor a, or MaxActors when it is not in the table. */
    ghost function IndexOf(a: Actor): nat
      reads actors
    {
      First(Names(actors[..]), Some(a.name))
    }

    /** The eviction half of findActor: the least recently used slot is emptied and its generation reset. */
    method EvictOldest() returns (oldest: nat)
      requires MaxActors == actors.Length == updates.Length
      modifies actors, updates
      ensures oldest == Oldest(old(updates[..]))
      ensures actors[..] == old(actors[..])[oldest := null]
      ensures updates[..] == old(updates[..])[oldest := 0]
    {
      oldest := 0;
      var i := 1;
      while i < MaxActors
        invariant 1 <= i <= MaxActors
        invariant oldest == Oldest(updates[..i])
      {
        assert updates[..i + 1][..i] == updates[..i];
        if updates[i] < updates[oldest] {
          oldest := i;
        }
        i := i + 1;
      }
      assert updates[..MaxActors] == updates[..];
      actors[oldest] := null;
      updates[oldest] := 0;
    }

    /** The allocation half of findActor: a new actor in the lowest empty slot, at generation 0. */
    method Allocate(name: string, ghost t: Table) returns (a: Actor)
      requires MaxActors == actors.Length == updates.Length
      requires WellFormed(t) && First(t.names, Some(name)) == MaxActors
      requires generation == t.generation
      requires if First(t.names, None) < MaxActors then Slots() == t
               else Names(actors[..]) == t.names[Oldest(t.gens) := None] && updates[..] == t.gens[Oldest(t.gens) := 0]
      modifies actors, updates
      ensures fresh(a) && a.name == name && a.lastPosition.None?
      ensures IndexOf(a) < MaxActors && actors[IndexOf(a)] == a
      ensures (Slots(), IndexOf(a)) == Admit(t, name)
      ensures WellFormed(Slots())
    {
      ghost var s := FreeSlot(t);
      FirstIsFirst(t.names, None);
      FirstIsFirst(t.names, Some(name));
      if First(t.names, None) == MaxActors {
        OldestIsOldest(t.gens);
      }
      assert Names(actors[..])[s] == None && forall j :: 0 <= j < s ==> Names(actors[..])[j] != None;
      var i := 0;
      while actors[i] != null
        invariant 0 <= i <= s
        invariant forall j :: 0 <= j < i ==> actors[j] != null
        decreases s - i
      {
        i := i + 1;
      }
      assert Names(actors[..])[i] == None;
      ghost var before := actors[..];
      a := new Actor(name, None);
      actors[i] := a;
      updates[i] := 0;
      NamesUpdate(before, i, a);
      AdmitPlaces(t, name);
      assert Names(before)[s := Some(name)] == t.names[s := Some(name)];
      assert Names(actors[..]) == t.names[s := Some(name)];
      assert updates[..] == t.gens[s := 0];
      FirstAt(Names(actors[..]), Some(name), i);
    }
  }
}
