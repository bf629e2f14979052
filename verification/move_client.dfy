/** The imperative form of cmdutils/move.go, over the two API servers, proved against module Move. */
module MoveClient {
  import opened Wrappers
  import opened Move
  import opened MoveRollback

  ghost predicate InScope(key: Key, kind: Kind, namespace: string) {
    key.kind == kind && (namespace == "" || key.namespace == namespace)
  }

  /** `items` lists exactly the stored objects of one kind in one namespace ("" for all), once each. */
  ghost predicate Lists(store: map<Key, Object>, kind: Kind, namespace: string, items: seq<Object>) {
    && (forall i :: 0 <= i < |items| ==> InScope(items[i].key, kind, namespace))
    && (forall i :: 0 <= i < |items| ==> items[i].key in store && store[items[i].key] == items[i])
    && (forall key :: key in store && InScope(key, kind, namespace) ==>
        exists i :: 0 <= i < |items| && items[i].key == key)
    && (forall i, j :: 0 <= i < j < |items| ==> items[i].key != items[j].key)
  }

  /** The same for the part of the store that is not `todo`. */
  ghost predicate ListsBut(store: map<Key, Object>, kind: Kind, namespace: string, items: seq<Object>, todo: set<Key>) {
    && (forall i :: 0 <= i < |items| ==> InScope(items[i].key, kind, namespace) && items[i].key !in todo)
    && (forall i :: 0 <= i < |items| ==> items[i].key in store && store[items[i].key] == items[i])
    && (forall key :: key in store && key !in todo && InScope(key, kind, namespace) ==>
          exists i :: 0 <= i < |items| && items[i].key == key)
    && (forall i, j :: 0 <= i < j < |items| ==> items[i].key != items[j].key)
  }

  lemma ListsNext(store: map<Key, Object>, kind: Kind, namespace: string, items: seq<Object>, todo: set<Key>, key: Key)
    requires ListsBut(store, kind, namespace, items, todo) && key in todo && key in store && store[key].key == key
    ensures ListsBut(store, kind, namespace, if InScope(key, kind, namespace) then items + [store[key]]
        else items, todo - {key})
  {
    var longer := items + [store[key]];
    assert longer[|items|].key == key;
    assert forall i :: 0 <= i < |items| ==> longer[i] == items[i];
  }

  /** What an API server answers to a list request, in some order. */
  method ListOf(store: map<Key, Object>, kind: Kind, namespace: string) returns (items: seq<Object>)
    requires Consistent(store)
    ensures Lists(store, kind, namespace, items)
  {
    items := [];
    var todo := store.Keys;
    while todo != {}
      invariant todo <= store.Keys && ListsBut(store, kind, namespace, items, todo)
      decreases todo
    {
      var key :| key in todo;
      ListsNext(store, kind, namespace, items, todo, key);
      todo := todo - {key};
      if key.kind == kind && (namespace == "" || key.namespace == namespace) {
        items := items + [store[key]];
      }
    }
  }

  /** What `Move` may do to the world: fail because a listing failed, or run on the listed CRs. */
  ghost predicate MayMove(w: World, namespace: string, requireOwners: bool, dryRun: bool, ok: bool, after: World) {
    if FaultAt(w.faults, 0) != NoFault then !ok && after == Tick(w)
    else if FaultAt(w.faults, 1) != NoFault then !ok && after == Tick(Tick(w))
    else exists https, ipxes ::
      && Lists(w.source, HTTPBootConfig, namespace, https)
      && Lists(w.source, IPXEBootConfig, namespace, ipxes)
      && Outcome(ok, after) == Moved(Tick(Tick(w)), https + ipxes, requireOwners, dryRun)
  }

  /** The result of planning once `objs` has been planned and the rest is `rest`. */
  function After(objs: seq<Object>, rest: Step<seq<Object>>): Step<seq<Object>> {
    if rest.result.Ok? then rest.(result := Ok(objs + rest.result.value)) else rest
  }

  lemma AfterTwice(a: seq<Object>, b: seq<Object>, rest: Step<seq<Object>>)
    ensures After(a, After(b, rest)) == After(a + b, rest)
    ensures After([], rest) == rest
  {
    if rest.result.Ok? {
      assert a + (b + rest.result.value) == a + b + rest.result.value;
      assert [] + rest.result.value == rest.result.value;
    }
  }

  /** Having planned `objs`, what is left is to plan the rest from here. */
  ghost predicate Planning(start: World, now: World, crs: seq<Object>, rest: seq<Object>, names: map<nat, string>,
                           objs: seq<Object>) {
    Plan(start, crs, names) == After(objs, Plan(now, rest, names))
  }

  lemma PlanningStarts(start: World, crs: seq<Object>, names: map<nat, string>)
    ensures Planning(start, start, crs, crs[0..], names, [])
  {
    assert crs[0..] == crs;
    AfterTwice([], [], Plan(start, crs, names));
  }

  lemma PlanningEnds(start: World, now: World, crs: seq<Object>, names: map<nat, string>, objs: seq<Object>)
    requires Planning(start, now, crs, crs[|crs|..], names, objs)
    ensures Plan(start, crs, names) == Step(Ok(objs), now)
  {
    assert objs + [] == objs;
  }

  lemma PlanningNext(start: World, now: World, crs: seq<Object>, rest: seq<Object>, names: map<nat, string>,
      objs: seq<Object>)
    requires Planning(start, now, crs, rest, names, objs) && rest != []
    ensures var first := PlanOne(now, rest[0], NameFor(names, rest[0].uid));
      if first.result.Err? then Plan(start, crs, names) == first
      else Planning(start, first.world, crs, rest[1..], names, objs + first.result.value)
  {
    var first := PlanOne(now, rest[0], NameFor(names, rest[0].uid));
    if first.result.Ok? {
      AfterTwice(objs, first.result.value, Plan(first.world, rest[1..], names));
    }
  }

  /** What `moveObjs` returns, and the world it leaves, once `moved` has been moved and the rest is `rest`. */
  function Report(moved: seq<Object>, rest: Executed): (bool, seq<Object>, World) {
    (rest.ok, moved + rest.moved, rest.world)
  }

  lemma ReportTwice(a: seq<Object>, b: seq<Object>, rest: Executed)
    ensures Report(a, rest.(moved := b + rest.moved)) == Report(a + b, rest)
  {
    assert a + (b + rest.moved) == a + b + rest.moved;
  }

  /** One of the two loops of `getUidToSecretNameMap`. */
  method AddSecretNames(known: map<nat, string>, ghost before: seq<Object>, crs: seq<Object>)
      returns (names: map<nat, string>)
    requires known == SecretNames(before)
    ensures names == SecretNames(before + crs)
  {
    names := known;
    assert before + crs[..0] == before;
    for i := 0 to |crs|
      invariant names == SecretNames(before + crs[..i])
    {
      ghost var now := before + crs[..i + 1];
      assert now[|now| - 1] == crs[i] && now[..|now| - 1] == before + crs[..i];
      if crs[i].ignitionSecretRef.Some? {
        names := names[crs[i].uid := crs[i].ignitionSecretRef.value];
      }
    }
    assert crs[..|crs|] == crs;
  }

  method UidToSecretName(https: seq<Object>, ipxes: seq<Object>) returns (names: map<nat, string>)
    ensures names == SecretNames(https + ipxes)
  {
    names := AddSecretNames(map[], [], https);
    assert [] + https == https;
    names := AddSecretNames(names, https, ipxes);
  }

  class Clients {
    var source: map<Key, Object>
    var target: map<Key, Object>
    var faults: seq<Fault>
    var serial: nat

    ghost function State(): World
      reads this
    {
      World(source, target, faults, serial)
    }

    method Call() returns (fault: Fault)
      modifies `faults
      ensures fault == FaultAt(old(faults), 0) && State() == Tick(old(State()))
    {
      fault := NoFault;
      if |faults| > 0 {
        fault, faults := faults[0], faults[1..];
      }
    }

    method SourceGet(key: Key) returns (found: Lookup)
      modifies `faults
      ensures found == Get(source, old(faults), key) && State() == Tick(old(State()))
    {
      var fault := Call();
      found := if fault != NoFault then Failed else if key in source then Found(source[key]) else NotFound;
    }

    method TargetGet(key: Key) returns (found: Lookup)
      modifies `faults
      ensures found == Get(target, old(faults), key) && State() == Tick(old(State()))
    {
      var fault := Call();
      found := if fault != NoFault then Failed else if key in target then Found(target[key]) else NotFound;
    }

    method TargetCreate(o: Object) returns (ok: bool)
      modifies `target, `faults, `serial
      ensures ok <==> Create(old(State()), o).result.Ok?
      ensures State() == Create(old(State()), o).world
    {
      var fault := Call();
      var accepted := o.key !in target && o.resourceVersion == 0;
      if fault != Rejected && accepted {
        serial := serial + 1;
        target := target[o.key := Persisted(o, serial)];
      }
      ok := fault == NoFault && accepted;
    }

    method TargetDelete(key: Key) returns (ok: bool)
      modifies `target, `faults
      ensures ok <==> Delete(old(State()), key).result.Ok?
      ensures State() == Delete(old(State()), key).world
    {
      var fault := Call();
      ok := fault == NoFault && key in target;
      if fault != Rejected {
        target := target - {key};
      }
    }

    method SourceList(kind: Kind, namespace: string) returns (r: Result<seq<Object>>)
      requires Consistent(source)
      modifies `faults
      ensures State() == Tick(old(State()))
      ensures r.Err? <==> FaultAt(old(faults), 0) != NoFault
      ensures r.Ok? ==> Lists(source, kind, namespace, r.value)
    {
      var fault := Call();
      if fault != NoFault {
        return Err;
      }
      var items := ListOf(source, kind, namespace);
      r := Ok(items);
    }

    /** `getSecret` */
    method GetSecret(name: string, namespace: string) returns (r: Result<Option<Object>>)
      modifies `faults
      ensures Step(r, State()) == SecretToMove(old(State()), name, namespace)
      ensures var secret := Key(Secret, namespace, name);
        old(faults) == [] && name != "" ==>
          if secret !in source then r == Err
          else if secret !in target then r == Ok(Some(source[secret]))
          else r == if Cleared(source[secret]) == Cleared(target[secret]) then Ok(None) else Err
    {
      if name == "" {
        return Ok(None);
      }
      var sourceSecret := SourceGet(SecretKey(namespace, name));
      if !sourceSecret.Found? {
        return Err;
      }
      var targetSecret := TargetGet(SecretKey(namespace, name));
      match targetSecret {
        case NotFound => r := Ok(Some(sourceSecret.stored));
        case Failed => r := Err;
        case Found(existing) =>
          r := if Cleared(sourceSecret.stored) == Cleared(existing) then Ok(None) else Err;
      }
    }

    /** The body of the loop of `getObjsToBeMoved`. */
    method Consider(cr: Object, secretName: string) returns (r: Result<seq<Object>>)
      modifies `faults
      ensures Step(r, State()) == PlanOne(old(State()), cr, secretName)
    {
      var existing := TargetGet(cr.key);
      if existing.NotFound? {
        var secret := GetSecret(secretName, cr.key.namespace);
        r := if secret.Ok? then Ok([cr] + Optional(secret.value)) else Err;
      } else if existing.Failed? {
        r := Err;
      } else {
        var targetObj := Decoded(cr, existing.stored);
        r := if Cleared(cr) == Cleared(targetObj) then Ok([]) else Err;
      }
    }

    /** `getObjsToBeMoved` */
    method ObjectsToBeMoved(https: seq<Object>, ipxes: seq<Object>) returns (r: Result<seq<Object>>)
      modifies `faults
      ensures Step(r, State()) == Plan(old(State()), https + ipxes, SecretNames(https + ipxes))
    {
      var names := UidToSecretName(https, ipxes);
      r := ConsiderAll(https + ipxes, names);
    }

    /** Its loop. */
    method ConsiderAll(crs: seq<Object>, names: map<nat, string>) returns (r: Result<seq<Object>>)
      modifies `faults
      ensures Step(r, State()) == Plan(old(State()), crs, names)
    {
      var objsToMove: seq<Object> := [];
      ghost var start := State();
      PlanningStarts(start, crs, names);
      for i := 0 to |crs|
        invariant Planning(start, State(), crs, crs[i..], names, objsToMove)
      {
        ghost var now := State();
        assert crs[i..][0] == crs[i] && crs[i..][1..] == crs[i + 1..];
        PlanningNext(start, now, crs, crs[i..], names, objsToMove);
        var found := Consider(crs[i], NameFor(names, crs[i].uid));
        if found.Err? {
          return Err;
        }
        objsToMove := objsToMove + found.value;
      }
      PlanningEnds(start, State(), crs, names, objsToMove);
      r := Ok(objsToMove);
    }

    /** The owner lookup inside the loop of `moveObjs`. */
    method SetOwner(o: Object, requireOwners: bool) returns (r: Result<Object>)
      modifies `faults
      ensures Step(r, State()) == Prepare(old(State()), o, requireOwners)
    {
      var obj := o;
      if obj.group == BOOT_GROUP && |obj.ownerReferences| == 1 {
        obj := obj.(ownerReferences := []);
        var owner := TargetGet(OwnerKey(obj));
        if owner.Found? {
          obj := obj.(ownerReferences := [OwnerReference(owner.stored.key.name, owner.stored.uid, true)]);
        } else if owner.NotFound? && requireOwners {
          return Err;
        } else if !owner.NotFound? {
          return Err;
        }
      }
      r := Ok(obj.(resourceVersion := 0));
    }

    /** `moveObjs` */
    method MoveObjects(objs: seq<Object>, requireOwners: bool) returns (ok: bool, moved: seq<Object>)
      modifies `target, `faults, `serial
      ensures (ok, moved, State()) == Report([], Execute(old(State()), objs, requireOwners))
    {
      moved := [];
      assert objs[0..] == objs;
      for i := 0 to |objs|
        invariant source == old(source)
        invariant Report([], Execute(old(State()), objs, requireOwners)) ==
          Report(moved, Execute(State(), objs[i..], requireOwners))
      {
        assert objs[i..][0] == objs[i] && objs[i..][1..] == objs[i + 1..];
        assert moved + [] == moved;
        var obj := SetOwner(objs[i], requireOwners);
        if obj.Err? {
          return false, moved;
        }
        var created := TargetCreate(obj.value);
        if !created {
          return false, moved;
        }
        ReportTwice(moved, [obj.value], Execute(State(), objs[i + 1..], requireOwners));
        moved := moved + [obj.value];
      }
      assert moved + [] == moved;
      ok := true;
    }

    /** `cleanup` */
    method CleanUp(objs: seq<Object>)
      modifies `target, `faults
      ensures State() == Cleanup(old(State()), objs)
    {
      for i := 0 to |objs|
        invariant source == old(source) && serial == old(serial)
        invariant Cleanup(old(State()), objs) == Cleanup(State(), objs[i..])
      {
        assert objs[i..][0] == objs[i] && objs[i..][1..] == objs[i + 1..];
        var _ := TargetDelete(objs[i].key);
      }
    }

    /** `Move` once the CRs are listed. */
    method MoveListed(https: seq<Object>, ipxes: seq<Object>, requireOwners: bool, dryRun: bool) returns (ok: bool)
      modifies `target, `faults, `serial
      ensures Outcome(ok, State()) == Moved(old(State()), https + ipxes, requireOwners, dryRun)
    {
      var plan := ObjectsToBeMoved(https, ipxes);
      ok := plan.Ok?;
      if plan.Ok? && !dryRun {
        var moved;
        ghost var e := Execute(State(), plan.value, requireOwners);
        ok, moved := MoveObjects(plan.value, requireOwners);
        assert moved == e.moved;
        if !ok {
          CleanUp(moved);
        }
      }
    }

    /** `Move` */
    method Move(namespace: string, requireOwners: bool, dryRun: bool) returns (ok: bool)
      requires Consistent(source)
      modifies `target, `faults, `serial
      ensures MayMove(old(State()), namespace, requireOwners, dryRun, ok, State())
      ensures forall key :: key in old(target) ==> key in target && target[key] == old(target)[key]
      ensures dryRun ==> target == old(target)
    {
      var https := SourceList(HTTPBootConfig, namespace);
      if https.Err? {
        return false;
      }
      var ipxes := SourceList(IPXEBootConfig, namespace);
      if ipxes.Err? {
        return false;
      }
      RollbackIsExact(State(), https.value + ipxes.value, requireOwners, dryRun);
      ok := MoveListed(https.value, ipxes.value, requireOwners, dryRun);
    }
  }
}
