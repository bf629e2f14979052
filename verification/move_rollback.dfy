/** What a failing move leaves behind, for every pattern of API failures. */
module MoveRollback {
  import opened Wrappers
  import opened Move

  ghost function Keys(objs: seq<Object>): set<Key> {
    if objs == [] then {} else {objs[0].key} + Keys(objs[1..])
  }

  ghost predicate Distinct(objs: seq<Object>) {
    objs != [] ==> objs[0].key !in Keys(objs[1..]) && Distinct(objs[1..])
  }

  lemma KeysCons(o: Object, objs: seq<Object>)
    ensures Keys([o] + objs) == {o.key} + Keys(objs)
    ensures Distinct([o] + objs) <==> o.key !in Keys(objs) && Distinct(objs)
  {
    assert ([o] + objs)[1..] == objs;
  }

  lemma PlanOneReads(w: World, cr: Object, secretName: string)
    ensures PlanOne(w, cr, secretName).world == w.(faults := PlanOne(w, cr, secretName).world.faults)
  {
  }

  /** Planning only reads. */
  lemma {:induction false} PlanReads(w: World, crs: seq<Object>, names: map<nat, string>)
    ensures Plan(w, crs, names).world == w.(faults := Plan(w, crs, names).world.faults)
    decreases |crs|
  {
    if crs != [] {
      PlanOneReads(w, crs[0], NameFor(names, crs[0].uid));
      PlanReads(PlanOne(w, crs[0], NameFor(names, crs[0].uid)).world, crs[1..], names);
    }
  }

  /** `after` is `before` with new entries under `added` only. */
  ghost predicate Extends(before: map<Key, Object>, after: map<Key, Object>, added: set<Key>) {
    && (forall key :: key in added ==> key !in before)
    && (forall key :: key in after <==> key in before || key in added)
    && (forall key :: key in before ==> after[key] == before[key])
  }

  lemma {:induction false} CreateAdds(w: World, o: Object)
    ensures var c := Create(w, o);
      && c.world.source == w.source
      && Extends(w.target, c.world.target, c.world.target.Keys - w.target.Keys)
      && |c.world.target.Keys - w.target.Keys| <= 1
      && (c.result.Ok? ==> Extends(w.target, c.world.target, {o.key}))
  {
    var added := Create(w, o).world.target.Keys - w.target.Keys;
    assert added == {} || added == {o.key};
  }

  lemma ExtendsCompose(t0: map<Key, Object>, t1: map<Key, Object>, t2: map<Key, Object>, a: set<Key>, b: set<Key>)
    requires Extends(t0, t1, a) && Extends(t1, t2, b)
    ensures Extends(t0, t2, a + b) && a !! b
  {
  }

  lemma PrepareReads(w: World, o: Object, requireOwners: bool)
    ensures var p := Prepare(w, o, requireOwners);
      && p.world == w.(faults := p.world.faults)
      && (p.result.Ok? ==> p.result.value.key == o.key && p.result.value.resourceVersion == 0)
  {
  }

  /** The target only gains the objects reported as moved and, on failure, at most one stray. */
  ghost predicate Grew(w: World, e: Executed) {
    && e.world.source == w.source
    && Reported(e.moved, e.stray, e.ok)
    && Extends(w.target, e.world.target, Keys(e.moved) + e.stray)
  }

  ghost predicate Reported(moved: seq<Object>, stray: set<Key>, ok: bool) {
    Distinct(moved) && (forall key :: key in stray ==> key !in Keys(moved)) && |stray| <= 1 && (ok ==> stray == {})
  }

  lemma ReportedCons(o: Object, moved: seq<Object>, stray: set<Key>, ok: bool)
    requires Reported(moved, stray, ok) && o.key !in Keys(moved) + stray
    ensures Reported([o] + moved, stray, ok)
    ensures Keys([o] + moved) + stray == {o.key} + (Keys(moved) + stray)
  {
    assert ([o] + moved)[1..] == moved;
  }

  lemma GrewStep(w: World, w1: World, o: Object, rest: Executed)
    requires w1.source == w.source && Extends(w.target, w1.target, {o.key}) && Grew(w1, rest)
    ensures Grew(w, rest.(moved := [o] + rest.moved))
  {
    ExtendsCompose(w.target, w1.target, rest.world.target, {o.key}, Keys(rest.moved) + rest.stray);
    ReportedCons(o, rest.moved, rest.stray, rest.ok);
  }

  /** Execution of an object that has been prepared, and of the rest. */
  function ExecuteFrom(p: World, o: Object, rest: seq<Object>, requireOwners: bool): Executed {
    var c := Create(p, o);
    if c.result.Ok? then
      var e := Execute(c.world, rest, requireOwners);
      e.(moved := [o] + e.moved)
    else Executed(false, [], c.world.target.Keys - p.target.Keys, c.world)
  }

  lemma ExecuteUnfolds(w: World, objs: seq<Object>, requireOwners: bool)
    requires objs != []
    ensures var p := Prepare(w, objs[0], requireOwners);
      Execute(w, objs, requireOwners) ==
        if p.result.Ok? then ExecuteFrom(p.world, p.result.value, objs[1..], requireOwners)
        else Executed(false, [], {}, p.world)
  {
  }

  lemma ExecuteFromGrows(p: World, o: Object, rest: seq<Object>, requireOwners: bool)
    requires var c := Create(p, o); c.result.Ok? ==> Grew(c.world, Execute(c.world, rest, requireOwners))
    ensures Grew(p, ExecuteFrom(p, o, rest, requireOwners))
  {
    CreateAdds(p, o);
    var c := Create(p, o);
    if c.result.Ok? { GrewStep(p, c.world, o, Execute(c.world, rest, requireOwners)); }
  }

  lemma {:induction false} ExecuteGrows(w: World, objs: seq<Object>, requireOwners: bool)
    ensures Grew(w, Execute(w, objs, requireOwners))
    decreases |objs|
  {
    if objs != [] {
      var p := Prepare(w, objs[0], requireOwners);
      PrepareReads(w, objs[0], requireOwners);
      ExecuteUnfolds(w, objs, requireOwners);
      if p.result.Ok? {
        var c := Create(p.world, p.result.value);
        if c.result.Ok? { ExecuteGrows(c.world, objs[1..], requireOwners); }
        ExecuteFromGrows(p.world, p.result.value, objs[1..], requireOwners);
      }
    }
  }

  /** The objects whose compensating delete never reached the server. */
  ghost function Undeleted(faults: seq<Fault>, objs: seq<Object>): set<Key>
    decreases |objs|
  {
    if objs == [] then {}
    else
      (if FaultAt(faults, 0) == Rejected then {objs[0].key} else {})
      + Undeleted(if faults == [] then [] else faults[1..], objs[1..])
  }

  lemma {:induction false} UndeletedAmong(faults: seq<Fault>, objs: seq<Object>)
    ensures Undeleted(faults, objs) <= Keys(objs)
    decreases |objs|
  {
    if objs != [] { UndeletedAmong(if faults == [] then [] else faults[1..], objs[1..]); }
  }

  lemma {:induction false} CleanupRemoves(w: World, objs: seq<Object>)
    requires Distinct(objs)
    ensures Cleanup(w, objs).source == w.source
    ensures Cleanup(w, objs).target == w.target - (Keys(objs) - Undeleted(w.faults, objs))
    decreases |objs|
  {
    if objs != [] {
      var w1 := Delete(w, objs[0].key).world;
      CleanupRemoves(w1, objs[1..]);
      UndeletedAmong(w1.faults, objs[1..]);
    }
  }

  /** What stays in the target after a failed move: nothing if planning failed, otherwise the objects
      whose compensating delete was rejected and the object whose create took effect unnoticed. */
  ghost function Leftover(w: World, crs: seq<Object>, requireOwners: bool): set<Key> {
    var plan := Plan(w, crs, SecretNames(crs));
    if plan.result.Err? then {}
    else
      var e := Execute(plan.world, plan.result.value, requireOwners);
      Undeleted(e.world.faults, e.moved) + e.stray
  }

  /** All or nothing: every outcome keeps the source and the objects the target already had, a dry
      run changes nothing, and a failed move adds exactly the leftover. */
  lemma RollbackIsExact(w: World, crs: seq<Object>, requireOwners: bool, dryRun: bool)
    ensures var r := Moved(w, crs, requireOwners, dryRun);
      && r.world.source == w.source
      && (forall key :: key in w.target ==> key in r.world.target && r.world.target[key] == w.target[key])
      && (dryRun ==> r.world.target == w.target)
      && (!r.ok && !dryRun ==> Extends(w.target, r.world.target, Leftover(w, crs, requireOwners)))
  {
    var plan := Plan(w, crs, SecretNames(crs));
    PlanReads(w, crs, SecretNames(crs));
    if plan.result.Ok? && !dryRun {
      var e := Execute(plan.world, plan.result.value, requireOwners);
      ExecuteGrows(plan.world, plan.result.value, requireOwners);
      if !e.ok {
        CleanupRemoves(e.world, e.moved);
        UndeletedAmong(e.world.faults, e.moved);
        ExtendsShrinks(w.target, e.world.target, Keys(e.moved), e.stray, Undeleted(e.world.faults, e.moved));
      }
    }
  }

  lemma ExtendsShrinks(t0: map<Key, Object>, t1: map<Key, Object>, moved: set<Key>, stray: set<Key>, kept: set<Key>)
    requires Extends(t0, t1, moved + stray) && kept <= moved && moved !! stray
    ensures Extends(t0, t1 - (moved - kept), kept + stray)
  {
  }

  lemma {:induction false} UndeletedIff(faults: seq<Fault>, objs: seq<Object>, key: Key)
    ensures key in Undeleted(faults, objs) <==>
      exists i: nat :: i < |objs| && objs[i].key == key && FaultAt(faults, i) == Rejected
    decreases |objs|
  {
    if objs != [] {
      var later, rest := if faults == [] then [] else faults[1..], objs[1..];
      UndeletedIff(later, rest, key);
      assert forall i: nat :: i < |rest| ==> rest[i] == objs[i + 1] && FaultAt(later, i) == FaultAt(faults, i + 1);
      if i: nat :| i < |objs| && objs[i].key == key && FaultAt(faults, i) == Rejected {
        assert i > 0 ==> rest[i - 1].key == key && FaultAt(later, i - 1) == Rejected;
      }
    }
  }

  /** The documented promise, and exactly when the code keeps it.  A move that fails while creating
      puts the target back iff none of the compensating deletes is rejected and the create that failed
      had no effect; one that fails while planning never touched the target. */
  lemma RestoredIff(w: World, crs: seq<Object>, requireOwners: bool)
    requires !Moved(w, crs, requireOwners, false).ok
    ensures var target := Moved(w, crs, requireOwners, false).world.target;
      var plan := Plan(w, crs, SecretNames(crs));
      if plan.result.Err? then target == w.target
      else
        var e := Execute(plan.world, plan.result.value, requireOwners);
        target == w.target <==>
          e.stray == {} && forall i: nat :: i < |e.moved| ==> FaultAt(e.world.faults, i) != Rejected
  {
    RollbackIsExact(w, crs, requireOwners, false);
    var target := Moved(w, crs, requireOwners, false).world.target;
    var plan := Plan(w, crs, SecretNames(crs));
    assert Leftover(w, crs, requireOwners) == {} <==> target == w.target;
    if plan.result.Ok? {
      var e := Execute(plan.world, plan.result.value, requireOwners);
      forall key { UndeletedIff(e.world.faults, e.moved, key); }
      forall i: nat | i < |e.moved| && FaultAt(e.world.faults, i) == Rejected
        ensures e.moved[i].key in Undeleted(e.world.faults, e.moved)
      {
        UndeletedIff(e.world.faults, e.moved, e.moved[i].key);
      }
    }
  }

  lemma {:induction false} NoStray(w: World, objs: seq<Object>, requireOwners: bool)
    requires w.faults == []
    ensures var e := Execute(w, objs, requireOwners); e.stray == {} && e.world.faults == []
    decreases |objs|
  {
    if objs != [] {
      var p := Prepare(w, objs[0], requireOwners);
      if p.result.Ok? {
        NoStray(Create(p.world, p.result.value).world, objs[1..], requireOwners);
      }
    }
  }

  lemma {:induction false} PlanFaults(w: World, crs: seq<Object>, names: map<nat, string>)
    requires w.faults == []
    ensures Plan(w, crs, names).world == w
    decreases |crs|
  {
    if crs != [] {
      assert PlanOne(w, crs[0], NameFor(names, crs[0].uid)).world == w;
      PlanFaults(w, crs[1..], names);
    }
  }

  /** A move that fails although the network never did restores the target. */
  lemma FaultFreeFailureRestores(w: World, crs: seq<Object>, requireOwners: bool)
    requires w.faults == [] && !Moved(w, crs, requireOwners, false).ok
    ensures Moved(w, crs, requireOwners, false).world.target == w.target
  {
    RestoredIff(w, crs, requireOwners);
    PlanFaults(w, crs, SecretNames(crs));
    var plan := Plan(w, crs, SecretNames(crs));
    if plan.result.Ok? { NoStray(plan.world, plan.result.value, requireOwners); }
  }

  /** One lost reply to a create is enough to break the promise: the CR stays in the target. */
  lemma LostReplyLeavesCR(cr: Object)
    requires cr.key.kind == HTTPBootConfig && cr.ignitionSecretRef.None? && cr.group == ""
    ensures var r := Moved(World(map[cr.key := cr], map[], [NoFault, LostReply], 0), [cr], false, false);
      !r.ok && cr.key in r.world.target
  {
    var w := World(map[cr.key := cr], map[], [NoFault, LostReply], 0);
    var w1 := Tick(w);
    assert Plan(w1, [cr][1..], map[]) == Step(Ok([]), w1);
    assert SecretNames([cr]) == map[];
    assert SecretToMove(w1, NameFor(map[], cr.uid), cr.key.namespace) == Step(Ok(None), w1);
    assert [cr] + Optional<Object>(None) == [cr];
    assert PlanOne(w, cr, "") == Step(Ok([cr]), w1);
    assert Plan(w, [cr], map[]) == Step(Ok([cr]), w1);
    var o := cr.(resourceVersion := 0);
    assert Prepare(w1, cr, false) == Step(Ok(o), w1);
    assert FaultAt(w1.faults, 0) == LostReply;
    var e := Execute(w1, [cr], false);
    assert !e.ok && e.moved == [];
    assert cr.key in e.world.target;
  }
}
